/**
 * The chunked model transfer as a distributed system: any number of honest senders, one
 * receiver, and a network that may lose, duplicate and reorder messages. Peers listed as
 * hostile may in addition send arbitrary chunks under their own identity.
 */
module ChunkProtocol {
  import opened Wrappers
  import opened Numerics
  import opened ChunkRanges
  import opened Chunking
  import opened ChunkSender
  import opened ChunkReceiver
  import RetryPass

  datatype AckMsg = AckMsg(total: nat, sack: Bytes)

  /**
   * One honest transfer: the sender and every message ever put on the wire. Losing a message
   * is never delivering it; duplicating it is delivering it twice.
   */
  datatype Transfer = Transfer(sender: Sender, wire: set<ChunkMsg>, acks: set<AckMsg>)

  datatype State = State(inboxes: map<Key, Inbox>, transfers: map<Key, Transfer>)

  const INITIAL := State(map[], map[])

  function Box(s: State, k: Key): Inbox { if k in s.inboxes then s.inboxes[k] else EMPTY }

  function OutChunk(k: Key, s: Sender, i: nat): ChunkMsg { HonestChunk(k, s.weights, CHUNK_SIZE, i) }

  // ---- Admission caps ---------------------------------------------------------------

  function Open(inboxes: map<Key, Inbox>): set<Key> { set k | k in inboxes && inboxes[k].buffer.Some? }

  function OpenOf(inboxes: map<Key, Inbox>, peer: string): set<Key> { OfPeer(Open(inboxes), peer) }

  function OfPeer(keys: set<Key>, peer: string): set<Key> { set k | k in keys && k.peer == peer }

  predicate Room(inboxes: map<Key, Inbox>, peer: string) { HasRoom(Open(inboxes), peer) }

  ghost predicate WithinCaps(inboxes: map<Key, Inbox>) {
    && |Open(inboxes)| <= MAX_TOTAL_TRANSFERS
    && forall peer: string :: |OpenOf(inboxes, peer)| <= MAX_CONCURRENT_TRANSFERS_PER_PEER
  }

  /** A buffer is only ever opened when there is room. */
  lemma ReceiveRespectsCaps(inboxes: map<Key, Inbox>, k: Key, box: Inbox, env: Env, msg: ChunkMsg)
    requires WithinCaps(inboxes) && box == if k in inboxes then inboxes[k] else EMPTY
    ensures WithinCaps(inboxes[k := Receive(box, Room(inboxes, k.peer), env, msg).0])
  {
    hide Concat, Indices, HasAll;
    var box' := Receive(box, Room(inboxes, k.peer), env, msg).0;
    if box.buffer.None? && box'.buffer.Some? {
      assert Room(inboxes, k.peer);
    }
    UpdateRespectsCaps(inboxes, k, box');
  }

  lemma OpenAfter(inboxes: map<Key, Inbox>, k: Key, box: Inbox)
    ensures Open(inboxes[k := box]) == if box.buffer.Some? then Open(inboxes) + {k} else Open(inboxes) - {k}
  {
  }

  lemma UpdateRespectsCaps(inboxes: map<Key, Inbox>, k: Key, box: Inbox)
    requires WithinCaps(inboxes)
    requires box.buffer.Some? && (k in inboxes ==> inboxes[k].buffer.None?) ==> Room(inboxes, k.peer)
    ensures WithinCaps(inboxes[k := box])
  {
    var updated := inboxes[k := box];
    var before, after := Open(inboxes), Open(updated);
    OpenAfter(inboxes, k, box);
    assert k in before <==> k in inboxes && inboxes[k].buffer.Some?;
    hide Open;
    SubsetCardinality(before - {k}, before);
    if k in before { assert before + {k} == before; }
    forall peer: string
      ensures |OpenOf(updated, peer)| <= MAX_CONCURRENT_TRANSFERS_PER_PEER
    {
      PeerCap(before, after, k, peer);
      assert |OpenOf(inboxes, peer)| <= MAX_CONCURRENT_TRANSFERS_PER_PEER;
    }
  }

  lemma PeerCap(before: set<Key>, after: set<Key>, k: Key, peer: string)
    requires after <= before + {k}
    ensures |OfPeer(after, peer)| <= |OfPeer(before, peer)|
                                     + if k in after && k !in before && peer == k.peer then 1 else 0
  {
    if k in after && k !in before && peer == k.peer {
      SubsetCardinality(OfPeer(after, peer), OfPeer(before, peer) + {k});
    } else {
      SubsetCardinality(OfPeer(after, peer), OfPeer(before, peer));
    }
  }

  // ---- One transfer and its inbox -----------------------------------------------------

  ghost predicate WireOk(k: Key, t: Transfer) {
    forall m :: m in t.wire ==>
                  && m.index < t.sender.Total() && m == OutChunk(k, t.sender, m.index)
                  && (!t.sender.phase.Done? ==> m.index < t.sender.nextIndex)
  }

  ghost predicate AcksOk(t: Transfer, accepted: set<nat>) {
    forall a :: a in t.acks ==>
                  && a.total == t.sender.Total() && WellFormed(a.sack, Some(a.total))
                  && Covered(RangesIn(a.sack)) <= accepted
  }

  ghost predicate LinkOk(k: Key, t: Transfer, i: Inbox) {
    && Valid(t.sender)
    && |t.sender.weights| > CHUNK_SIZE && t.sender.Total() < UINT32
    && InboxOk(i, t.sender.weights, CHUNK_SIZE)
    && WireOk(k, t)
    && AcksOk(t, i.accepted)
    && (forall j :: j in i.accepted ==> OutChunk(k, t.sender, j) in t.wire)
    && t.sender.acked <= i.accepted
  }

  /** The sender takes a step of its loop and puts at most one chunk on the wire. */
  ghost function LinkLoop(k: Key, t: Transfer, i: Inbox, clock: real): Transfer
    requires LinkOk(k, t, i)
  {
    var s' := LoopStep(t.sender, clock);
    if |s'.sends| > |t.sender.sends| then t.(sender := s', wire := t.wire + {OutChunk(k, s', s'.sends[|s'.sends| - 1])})
    else t.(sender := s')
  }

  /** A loop step changes neither the bytes nor the acknowledgements, and sends at most one known index. */
  lemma LoopEmits(s: Sender, clock: real)
    requires Valid(s)
    ensures var s' := LoopStep(s, clock);
            && s'.weights == s.weights && s'.acked == s.acked && s'.nextIndex >= s.nextIndex
            && (s.phase.Done? ==> s' == s)
            && (|s'.sends| > |s.sends| ==> s'.sends[|s'.sends| - 1] < s'.nextIndex)
  {
    hide SumAttempts, InFlight, Window, ChunkCount;
    match s.phase
    case Done(_) =>
    case Top =>
    case Retry(_, _) =>
    case Fill =>
  }

  lemma LoopKeepsLink(k: Key, t: Transfer, i: Inbox, clock: real)
    requires LinkOk(k, t, i)
    ensures LinkOk(k, LinkLoop(k, t, i, clock), i)
  {
    hide InboxOk, LoopStep, SumAttempts, WellFormed, Covered, ChunkCount, Chunk;
    LoopKeepsValid(t.sender, clock);
    LoopEmits(t.sender, clock);
  }

  /** A chunk arrives, and the acknowledgement it causes, if any, is put on the wire. */
  ghost function LinkReceive(t: Transfer, i: Inbox, room: bool, env: Env, msg: ChunkMsg): (r: (Transfer, Inbox)) {
    var (i', reply) := Receive(i, room, env, msg);
    if reply.Some? && forall x :: x in reply.value.indices ==> x < UINT32
    then (t.(acks := t.acks + {AckMsg(reply.value.total, Packed(reply.value.indices))}), i')
    else (t, i')
  }

  lemma ReceiveKeepsLink(k: Key, t: Transfer, i: Inbox, room: bool, env: Env, msg: ChunkMsg)
    requires LinkOk(k, t, i) && msg in t.wire
    ensures var (t', i') := LinkReceive(t, i, room, env, msg); LinkOk(k, t', i')
  {
    hide Receive, Valid, InboxOk, WellFormed, Covered, ChunkCount, Chunk, Packed;
    ReceiveKeepsOk(i, room, env, k, t.sender.weights, CHUNK_SIZE, msg.index);
    var (i', reply) := Receive(i, room, env, msg);
    AcceptedInRange(i', t.sender.weights, CHUNK_SIZE);
    if reply.Some? {
      assert forall x :: x in reply.value.indices ==> x < t.sender.Total();
      SackRoundTrip(reply.value.indices, t.sender.Total());
    }
  }

  lemma AcceptedInRange(i: Inbox, weights: Bytes, size: nat)
    requires size > 0 && InboxOk(i, weights, size)
    ensures forall x :: x in i.accepted ==> x < ChunkCount(|weights|, size)
  {
  }

  lemma AckKeepsLink(k: Key, t: Transfer, i: Inbox, a: AckMsg)
    requires LinkOk(k, t, i) && a in t.acks
    ensures LinkOk(k, t.(sender := OnAck(t.sender, a.total, a.sack)), i)
  {
    hide Valid, InboxOk, WellFormed, Covered, ChunkCount, Chunk;
    AckKeepsValid(t.sender, a.total, a.sack);
  }

  /** A NACK with arbitrary contents re-arms chunks, or has them sent from the cache. */
  ghost function LinkNack(k: Key, t: Transfer, indices: seq<nat>): Transfer {
    var again := CachedResends(t.sender, indices);
    Transfer(OnNack(t.sender, indices),
             t.wire + (set j | 0 <= j < |again| :: OutChunk(k, t.sender, again[j])),
             t.acks)
  }

  lemma NackKeepsLink(k: Key, t: Transfer, i: Inbox, indices: seq<nat>)
    requires LinkOk(k, t, i)
    ensures LinkOk(k, LinkNack(k, t, indices), i)
  {
    hide InboxOk, WellFormed, Covered, ChunkCount, Chunk, Capped, SumAttempts, RearmAll;
    NackKeepsValid(t.sender, indices);
    RearmAccounts(t.sender, Capped(indices, t.sender.Total()));
  }

  lemma ForgetKeepsLink(k: Key, t: Transfer, i: Inbox)
    requires LinkOk(k, t, i)
    ensures LinkOk(k, t.(sender := Forget(t.sender)), i)
  {
    hide InboxOk, WellFormed, Covered, ChunkCount, Chunk, SumAttempts;
    ForgetKeepsValid(t.sender);
  }

  /** Expiry at the receiver forgets buffers and entries, never what was accepted. */
  lemma CleanupKeepsLink(k: Key, t: Transfer, i: Inbox, now: real, index: nat)
    requires LinkOk(k, t, i)
    ensures LinkOk(k, t, ExpireBuffer(i, now)) && LinkOk(k, t, PurgeCompleted(i, now))
        && LinkOk(k, t, PurgeRecent(i, index, now))
  {
    hide Valid, InboxOk, WireOk, AcksOk;
    CleanupKeepsOk(i, t.sender.weights, now, index);
  }

  lemma CleanupKeepsOk(i: Inbox, weights: Bytes, now: real, index: nat)
    requires InboxOk(i, weights, CHUNK_SIZE)
    ensures InboxOk(ExpireBuffer(i, now), weights, CHUNK_SIZE) && ExpireBuffer(i, now).accepted == i.accepted
    ensures InboxOk(PurgeCompleted(i, now), weights, CHUNK_SIZE) && PurgeCompleted(i, now).accepted == i.accepted
    ensures InboxOk(PurgeRecent(i, index, now), weights, CHUNK_SIZE)
    ensures PurgeRecent(i, index, now).accepted == i.accepted
  {
    hide BufferOk, ChunkCount, IsFull;
  }

  // ---- The whole system ------------------------------------------------------------------

  datatype Action =
    | Begin(k: Key, weights: Bytes, clock: real)
    | Loop(k: Key, clock: real)
    | ChunkArrives(msg: ChunkMsg, env: Env)
    | AckArrives(k: Key, ack: AckMsg)
    | NackArrives(k: Key, indices: seq<nat>)
    | CacheExpires(k: Key)
    | BufferExpires(k: Key, clock: real)
    | CompletedPurged(k: Key, clock: real)
    | RecentPurged(k: Key, index: nat, clock: real)

  /**
   * What may happen next. A transfer begins under a fresh id with more than one chunk of
   * bytes and a chunk count that fits the 32-bit payload field; chunks and acknowledgements
   * of honest peers arrive only if they were sent; hostile peers may send any chunk.
   */
  ghost predicate Enabled(hostile: set<string>, s: State, a: Action) {
    match a
    case Begin(k, weights, _) =>
      k !in s.transfers && k.peer !in hostile && |weights| > CHUNK_SIZE && ChunkCount(|weights|, CHUNK_SIZE) < UINT32
    case Loop(k, _) => k in s.transfers
    case ChunkArrives(msg, _) =>
      msg.key.peer in hostile || (msg.key in s.transfers && msg in s.transfers[msg.key].wire)
    case AckArrives(k, ack) => k in s.transfers && ack in s.transfers[k].acks
    case NackArrives(k, _) => k in s.transfers
    case CacheExpires(k) => k in s.transfers
    case BufferExpires(k, _) => k in s.inboxes
    case CompletedPurged(k, _) => k in s.inboxes
    case RecentPurged(k, _, _) => k in s.inboxes
  }

  ghost predicate Inv(hostile: set<string>, s: State) {
    && (forall k :: k in s.transfers ==> k.peer !in hostile && LinkOk(k, s.transfers[k], Box(s, k)))
    && (forall k :: k in s.inboxes ==> DeliveriesAccounted(s.inboxes[k]) && (k in s.transfers || k.peer in hostile))
    && WithinCaps(s.inboxes)
  }

  ghost function Apply(hostile: set<string>, s: State, a: Action): State
    requires Inv(hostile, s) && Enabled(hostile, s, a)
  {
    hide LinkOk, WithinCaps, DeliveriesAccounted, LinkReceive, LinkNack, Receive;
    match a
    case Begin(k, weights, clock) => s.(transfers := s.transfers[k := Transfer(Start(weights, clock), {}, {})])
    case Loop(k, clock) => s.(transfers := s.transfers[k := LinkLoop(k, s.transfers[k], Box(s, k), clock)])
    case ChunkArrives(msg, env) =>
      var k, room := msg.key, Room(s.inboxes, msg.key.peer);
      if k in s.transfers then
        var (t, i) := LinkReceive(s.transfers[k], Box(s, k), room, env, msg);
        State(s.inboxes[k := i], s.transfers[k := t])
      else s.(inboxes := s.inboxes[k := Receive(Box(s, k), room, env, msg).0])
    case AckArrives(k, ack) =>
      var t := s.transfers[k];
      s.(transfers := s.transfers[k := t.(sender := OnAck(t.sender, ack.total, ack.sack))])
    case NackArrives(k, indices) => s.(transfers := s.transfers[k := LinkNack(k, s.transfers[k], indices)])
    case CacheExpires(k) =>
      s.(transfers := s.transfers[k := s.transfers[k].(sender := Forget(s.transfers[k].sender))])
    case BufferExpires(k, clock) => s.(inboxes := s.inboxes[k := ExpireBuffer(s.inboxes[k], clock)])
    case CompletedPurged(k, clock) => s.(inboxes := s.inboxes[k := PurgeCompleted(s.inboxes[k], clock)])
    case RecentPurged(k, index, clock) => s.(inboxes := s.inboxes[k := PurgeRecent(s.inboxes[k], index, clock)])
  }

  /** Replacing the sender side of one link. */
  lemma TransferUpdate(hostile: set<string>, s: State, k: Key, t: Transfer)
    requires Inv(hostile, s) && k.peer !in hostile && LinkOk(k, t, Box(s, k))
    ensures Inv(hostile, s.(transfers := s.transfers[k := t]))
  {
    hide LinkOk, WithinCaps, DeliveriesAccounted;
  }

  /** Replacing the receiver side of one link. */
  lemma InboxUpdate(hostile: set<string>, s: State, k: Key, i: Inbox)
    requires Inv(hostile, s) && DeliveriesAccounted(i) && (k in s.transfers || k.peer in hostile)
    requires k in s.transfers ==> LinkOk(k, s.transfers[k], i)
    requires WithinCaps(s.inboxes[k := i])
    ensures Inv(hostile, s.(inboxes := s.inboxes[k := i]))
  {
    hide LinkOk, WithinCaps, DeliveriesAccounted;
  }

  /** Replacing both sides of one link. */
  lemma LinkUpdate(hostile: set<string>, s: State, k: Key, t: Transfer, i: Inbox)
    requires Inv(hostile, s) && DeliveriesAccounted(i) && k in s.transfers
    requires LinkOk(k, t, i) && WithinCaps(s.inboxes[k := i])
    ensures Inv(hostile, State(s.inboxes[k := i], s.transfers[k := t]))
  {
    hide LinkOk, WithinCaps, DeliveriesAccounted;
  }

  lemma ArrivalKeepsInv(hostile: set<string>, s: State, msg: ChunkMsg, env: Env)
    requires Inv(hostile, s) && Enabled(hostile, s, ChunkArrives(msg, env))
    ensures Inv(hostile, Apply(hostile, s, ChunkArrives(msg, env)))
  {
    hide LinkOk, WithinCaps, DeliveriesAccounted, Receive, Room;
    var k, room := msg.key, Room(s.inboxes, msg.key.peer);
    ReceiveRespectsCaps(s.inboxes, k, Box(s, k), env, msg);
    EmptyAccounted();
    ReceiveAccountsDeliveries(Box(s, k), room, env, msg);
    if k in s.transfers {
      ReceiveKeepsLink(k, s.transfers[k], Box(s, k), room, env, msg);
      var (t, i) := LinkReceive(s.transfers[k], Box(s, k), room, env, msg);
      hide LinkReceive;
      LinkUpdate(hostile, s, k, t, i);
    } else {
      InboxUpdate(hostile, s, k, Receive(Box(s, k), room, env, msg).0);
    }
  }

  lemma EmptyAccounted()
    ensures DeliveriesAccounted(EMPTY)
  {
  }

  lemma BeginKeepsInv(hostile: set<string>, s: State, k: Key, weights: Bytes, clock: real)
    requires Inv(hostile, s) && Enabled(hostile, s, Begin(k, weights, clock))
    ensures Inv(hostile, Apply(hostile, s, Begin(k, weights, clock)))
  {
    hide WithinCaps, DeliveriesAccounted, ChunkCount;
    var t := Transfer(Start(weights, clock), {}, {});
    assert Box(s, k) == EMPTY;
    assert LinkOk(k, t, EMPTY);
    TransferUpdate(hostile, s, k, t);
  }

  lemma CleanupKeepsInv(hostile: set<string>, s: State, k: Key, index: nat, clock: real)
    requires Inv(hostile, s) && k in s.inboxes
    ensures Inv(hostile, s.(inboxes := s.inboxes[k := ExpireBuffer(s.inboxes[k], clock)]))
    ensures Inv(hostile, s.(inboxes := s.inboxes[k := PurgeCompleted(s.inboxes[k], clock)]))
    ensures Inv(hostile, s.(inboxes := s.inboxes[k := PurgeRecent(s.inboxes[k], index, clock)]))
  {
    hide LinkOk, WithinCaps, Room;
    var i := s.inboxes[k];
    if k in s.transfers { CleanupKeepsLink(k, s.transfers[k], i, clock, index); }
    UpdateRespectsCaps(s.inboxes, k, ExpireBuffer(i, clock));
    UpdateRespectsCaps(s.inboxes, k, PurgeCompleted(i, clock));
    UpdateRespectsCaps(s.inboxes, k, PurgeRecent(i, index, clock));
    InboxUpdate(hostile, s, k, ExpireBuffer(i, clock));
    InboxUpdate(hostile, s, k, PurgeCompleted(i, clock));
    InboxUpdate(hostile, s, k, PurgeRecent(i, index, clock));
  }

  /** Every step keeps the invariant. */
  lemma StepKeepsInv(hostile: set<string>, s: State, a: Action)
    requires Inv(hostile, s) && Enabled(hostile, s, a)
    ensures Inv(hostile, Apply(hostile, s, a))
  {
    hide LinkOk, WithinCaps, DeliveriesAccounted, Receive, LinkNack, OnAck, Forget, ExpireBuffer, PurgeCompleted,
        PurgeRecent;
    match a
    case Begin(k, weights, clock) => BeginKeepsInv(hostile, s, k, weights, clock);
    case Loop(k, clock) =>
      LoopKeepsLink(k, s.transfers[k], Box(s, k), clock);
      TransferUpdate(hostile, s, k, LinkLoop(k, s.transfers[k], Box(s, k), clock));
    case ChunkArrives(msg, env) => ArrivalKeepsInv(hostile, s, msg, env);
    case AckArrives(k, ack) =>
      var t := s.transfers[k];
      AckKeepsLink(k, t, Box(s, k), ack);
      TransferUpdate(hostile, s, k, t.(sender := OnAck(t.sender, ack.total, ack.sack)));
    case NackArrives(k, indices) =>
      NackKeepsLink(k, s.transfers[k], Box(s, k), indices);
      TransferUpdate(hostile, s, k, LinkNack(k, s.transfers[k], indices));
    case CacheExpires(k) =>
      ForgetKeepsLink(k, s.transfers[k], Box(s, k));
      TransferUpdate(hostile, s, k, s.transfers[k].(sender := Forget(s.transfers[k].sender)));
    case BufferExpires(k, clock) => CleanupKeepsInv(hostile, s, k, 0, clock);
    case CompletedPurged(k, clock) => CleanupKeepsInv(hostile, s, k, 0, clock);
    case RecentPurged(k, index, clock) => CleanupKeepsInv(hostile, s, k, index, clock);
  }

  // ---- Runs ---------------------------------------------------------------------------------

  /** The state after the actions, if each was enabled when taken. */
  ghost function Run(hostile: set<string>, actions: seq<Action>): (r: Option<State>)
    ensures r.Some? ==> Inv(hostile, r.value)
  {
    if actions == [] then
      InitialInv(hostile);
      Some(INITIAL)
    else
      var before, a := Run(hostile, actions[..|actions| - 1]), actions[|actions| - 1];
      if before.None? || !Enabled(hostile, before.value, a) then None
      else
        StepKeepsInv(hostile, before.value, a);
        Some(Apply(hostile, before.value, a))
  }

  lemma InitialInv(hostile: set<string>)
    ensures Inv(hostile, INITIAL)
  {
    assert Open(map[]) == {};
    assert forall peer: string :: OpenOf(map[], peer) == {};
  }

  lemma LinkAccepted(k: Key, t: Transfer, i: Inbox)
    requires LinkOk(k, t, i)
    ensures t.sender.acked <= i.accepted
    ensures forall j :: j in i.accepted ==> j < t.sender.Total() && OutChunk(k, t.sender, j) in t.wire
    ensures !t.sender.phase.Done? ==> forall j :: j in i.accepted ==> j < t.sender.nextIndex
  {
    hide Valid, WellFormed, Covered, Chunk, ChunkCount;
    forall j | j in i.accepted
      ensures j < t.sender.Total() && (!t.sender.phase.Done? ==> j < t.sender.nextIndex)
    {
      assert OutChunk(k, t.sender, j).index == j;
    }
  }

  /** Whatever was reassembled, delivered or is still buffered for an honest transfer is the sender's. */
  lemma OnlySentBytesArrive(hostile: set<string>, actions: seq<Action>, s: State, k: Key)
    ensures Run(hostile, actions) == Some(s) && k in s.transfers ==>
            var w, i := s.transfers[k].sender.weights, Box(s, k);
            && (forall j :: 0 <= j < |i.reassembled| ==> i.reassembled[j] == w)
            && (forall j :: 0 <= j < |i.delivered| ==> i.delivered[j] == w)
            && (i.buffer.Some? ==> forall j :: j in i.buffer.value.chunks ==>
               i.buffer.value.chunks[j] == Chunk(w, j, CHUNK_SIZE))
  {
    hide Run, Valid, WellFormed, Covered, Chunk, ChunkCount;
    if Run(hostile, actions) == Some(s) && k in s.transfers { assert LinkOk(k, s.transfers[k], Box(s, k)); }
  }

  lemma CompletedLink(k: Key, t: Transfer, i: Inbox)
    requires LinkOk(k, t, i) && t.sender.completed && !i.expired
    ensures i.reassembled != []
  {
    hide WellFormed, Covered, Chunk, SumAttempts, Indices;
    var total := t.sender.Total();
    SubsetCardinality(t.sender.acked, i.accepted);
    FitsBelow(i.accepted, total);
    SomeChunk(t.sender.weights);
  }

  lemma SomeChunk(weights: Bytes)
    requires |weights| > CHUNK_SIZE
    ensures ChunkCount(|weights|, CHUNK_SIZE) > 0
  {
  }

  /**
   * A completed sender, and so one whose send loop returned True, means that the receiver
   * reassembled exactly the sent bytes, unless the receiver let a buffer of the transfer expire.
   */
  lemma CompletedMeansReassembled(hostile: set<string>, actions: seq<Action>, s: State, k: Key)
    ensures Run(hostile, actions) == Some(s) && k in s.transfers ==>
            var t, i := s.transfers[k], Box(s, k);
            && (t.sender.phase == Done(true) ==> t.sender.completed)
            && (t.sender.completed && !i.expired ==> t.sender.weights in i.reassembled)
  {
    hide Run, WellFormed, Covered, Chunk, ChunkCount, SumAttempts;
    if Run(hostile, actions) == Some(s) && k in s.transfers {
      var t, i := s.transfers[k], Box(s, k);
      if t.sender.completed && !i.expired {
        CompletedLink(k, t, i);
        assert i.reassembled[0] == t.sender.weights;
      }
    }
  }

  /** Chunks of this transfer always deserialise, once complete. */
  ghost predicate Deserialises(actions: seq<Action>, k: Key) {
    forall n :: 0 <= n < |actions| && actions[n].ChunkArrives? && actions[n].msg.key == k ==>
                  actions[n].env.deserializes
  }

  ghost predicate AllDelivered(s: State, k: Key) { Box(s, k).delivered == Box(s, k).reassembled }

  /** No action changes the bytes of a transfer, and each keeps reassembly and delivery together. */
  lemma StepDelivers(hostile: set<string>, s: State, a: Action, k: Key)
    requires Inv(hostile, s) && Enabled(hostile, s, a) && k in s.transfers && Deserialises([a], k)
    ensures var s' := Apply(hostile, s, a);
            && k in s'.transfers && s'.transfers[k].sender.weights == s.transfers[k].sender.weights
            && (|s.transfers[k].sender.weights| <= MAX_INCOMING_MESSAGE_SIZE && AllDelivered(s, k) ==>
                AllDelivered(s', k))
  {
    hide LinkOk, WithinCaps, DeliveriesAccounted, Receive, LinkLoop, LinkNack;
    var t := s.transfers[k];
    assert [a][0] == a;
    match a
    case Loop(j, clock) => if j == k { LoopKeepsBytes(k, t, Box(s, k), clock); }
    case NackArrives(j, indices) => if j == k { NackKeepsBytes(k, t, Box(s, k), indices); }
    case ChunkArrives(msg, env) =>
      if msg.key == k { LinkDelivers(k, t, Box(s, k), Room(s.inboxes, k.peer), env, msg); }
    case _ =>
  }

  lemma LoopKeepsBytes(k: Key, t: Transfer, i: Inbox, clock: real)
    requires LinkOk(k, t, i)
    ensures LinkLoop(k, t, i, clock).sender.weights == t.sender.weights
  {
    hide LoopStep, InboxOk, WireOk, AcksOk, ChunkCount;
    LoopEmits(t.sender, clock);
  }

  lemma NackKeepsBytes(k: Key, t: Transfer, i: Inbox, indices: seq<nat>)
    requires LinkOk(k, t, i)
    ensures LinkNack(k, t, indices).sender.weights == t.sender.weights
  {
    hide RearmAll, Capped, InboxOk, WireOk, AcksOk, ChunkCount;
    RearmAccounts(t.sender, Capped(indices, t.sender.Total()));
  }

  lemma LinkDelivers(k: Key, t: Transfer, i: Inbox, room: bool, env: Env, msg: ChunkMsg)
    requires LinkOk(k, t, i) && msg in t.wire && env.deserializes
    ensures var (t', i') := LinkReceive(t, i, room, env, msg);
            && t'.sender == t.sender
            && (|t.sender.weights| <= MAX_INCOMING_MESSAGE_SIZE && i.delivered == i.reassembled ==>
                i'.delivered == i'.reassembled)
  {
    hide Receive, Valid, InboxOk, AcksOk, ChunkCount, Chunk;
    if |t.sender.weights| <= MAX_INCOMING_MESSAGE_SIZE && i.delivered == i.reassembled {
      ReceiveDelivers(i, room, env, k, t.sender.weights, CHUNK_SIZE, msg.index);
    }
  }

  lemma BeginDelivers(hostile: set<string>, s: State, a: Action, k: Key)
    requires Inv(hostile, s) && Enabled(hostile, s, a) && k !in s.transfers && k in Apply(hostile, s, a).transfers
    ensures AllDelivered(Apply(hostile, s, a), k)
  {
    hide LinkOk, WithinCaps, DeliveriesAccounted, Receive, LinkNack, LinkLoop, ChunkCount;
    assert a.Begin? && a.k == k;
  }

  lemma {:induction false} RunDelivers(hostile: set<string>, actions: seq<Action>, s: State, k: Key)
    ensures (Run(hostile, actions) == Some(s) && k in s.transfers && Deserialises(actions, k)
             && |s.transfers[k].sender.weights| <= MAX_INCOMING_MESSAGE_SIZE) ==> AllDelivered(s, k)
  {
    hide Inv, Enabled, Apply, AllDelivered;
    if Run(hostile, actions) == Some(s) && k in s.transfers && Deserialises(actions, k)
       && |s.transfers[k].sender.weights| <= MAX_INCOMING_MESSAGE_SIZE && actions != [] {
      var n := |actions| - 1;
      var before := Run(hostile, actions[..n]).value;
      assert Deserialises([actions[n]], k) && Deserialises(actions[..n], k);
      if k in before.transfers {
        StepDelivers(hostile, before, actions[n], k);
        RunDelivers(hostile, actions[..n], before, k);
      } else {
        BeginDelivers(hostile, before, actions[n], k);
      }
    }
  }

  /**
   * If the bytes of a transfer fit the size limit and deserialise, a completed sender means that
   * they were handed to the callback, unless the receiver let a buffer of the transfer expire.
   */
  lemma CompletedMeansDelivered(hostile: set<string>, actions: seq<Action>, s: State, k: Key)
    ensures (Run(hostile, actions) == Some(s) && k in s.transfers && Deserialises(actions, k)
             && |s.transfers[k].sender.weights| <= MAX_INCOMING_MESSAGE_SIZE
             && s.transfers[k].sender.completed && !Box(s, k).expired) ==>
            s.transfers[k].sender.weights in Box(s, k).delivered
  {
    hide Run, Inv;
    RunDelivers(hostile, actions, s, k);
    CompletedMeansReassembled(hostile, actions, s, k);
  }

  /**
   * At most once: for every key, honest or hostile, the callback has been scheduled once per
   * purge of its completed entry plus once if the entry is there; and the caps always hold.
   */
  lemma AtMostOnceWithinCaps(hostile: set<string>, actions: seq<Action>, s: State)
    ensures Run(hostile, actions) == Some(s) ==>
            && (forall k :: k in s.inboxes ==>
                              |s.inboxes[k].delivered|
                              == s.inboxes[k].purges + if s.inboxes[k].completedAt.Some? then 1 else 0)
            && |Open(s.inboxes)| <= MAX_TOTAL_TRANSFERS
            && (forall peer: string :: |OpenOf(s.inboxes, peer)| <= MAX_CONCURRENT_TRANSFERS_PER_PEER)
  {
    hide Run, LinkOk, Open, OpenOf;
  }

  // ---- Beyond next_index ----------------------------------------------------------------------

  /** Every chunk ever put on the wire is one the send loop has reached. */
  ghost predicate WithinReach(t: Transfer) { forall m :: m in t.wire ==> m.index < t.sender.nextIndex }

  /** The action is a NACK answered from the cache with a chunk that the send loop never reached. */
  ghost predicate Overshoots(s: State, a: Action, k: Key) {
    && a.NackArrives? && a.k == k && k in s.transfers && CacheExposed(s.transfers[k].sender)
    && exists i :: i in CachedResends(s.transfers[k].sender, a.indices) && i >= s.transfers[k].sender.nextIndex
  }

  ghost predicate EverOvershot(hostile: set<string>, actions: seq<Action>, k: Key) {
    && actions != []
    && var n := |actions| - 1;
       var before := Run(hostile, actions[..n]);
       EverOvershot(hostile, actions[..n], k) || (before.Some? && Overshoots(before.value, actions[n], k))
  }

  lemma LoopReach(k: Key, t: Transfer, i: Inbox, clock: real)
    requires LinkOk(k, t, i)
    ensures WithinReach(LinkLoop(k, t, i, clock)) <==> WithinReach(t)
  {
    hide InboxOk, LoopStep, SumAttempts, AcksOk, ChunkCount, Chunk;
    LoopEmits(t.sender, clock);
  }

  lemma NackReach(k: Key, t: Transfer, i: Inbox, indices: seq<nat>)
    requires LinkOk(k, t, i)
    ensures WithinReach(LinkNack(k, t, indices))
            <==> WithinReach(t) && !(CacheExposed(t.sender)
                                     && exists j :: j in CachedResends(t.sender, indices) && j >= t.sender.nextIndex)
  {
    hide InboxOk, AcksOk, ChunkCount, Chunk, Capped, SumAttempts, RearmAll;
    RearmAccounts(t.sender, Capped(indices, t.sender.Total()));
    var again := CachedResends(t.sender, indices);
    var t' := LinkNack(k, t, indices);
    assert t'.sender.nextIndex == t.sender.nextIndex;
    forall j | 0 <= j < |again|
      ensures OutChunk(k, t.sender, again[j]) in t'.wire && OutChunk(k, t.sender, again[j]).index == again[j]
    {
    }
    if j :| j in again && j >= t.sender.nextIndex {
      var n :| 0 <= n < |again| && again[n] == j;
      assert OutChunk(k, t.sender, again[n]) in t'.wire;
      assert CacheExposed(t.sender);
    } else if WithinReach(t) {
      forall m | m in t'.wire
        ensures m.index < t'.sender.nextIndex
      {
        if m !in t.wire {
          var n :| 0 <= n < |again| && m == OutChunk(k, t.sender, again[n]);
          assert again[n] in again;
        }
      }
    }
  }

  /** One action keeps the wire of a transfer within reach exactly when it does not overshoot. */
  lemma StepReach(hostile: set<string>, s: State, a: Action, k: Key)
    requires Inv(hostile, s) && Enabled(hostile, s, a)
    ensures var s' := Apply(hostile, s, a);
            && (k in s.transfers ==> k in s'.transfers
                                     && (WithinReach(s'.transfers[k])
                                        <==> WithinReach(s.transfers[k]) && !Overshoots(s, a, k)))
            && (k !in s.transfers && k in s'.transfers ==> WithinReach(s'.transfers[k]))
  {
    hide LinkOk, WithinCaps, DeliveriesAccounted, Receive, LinkNack, LinkLoop, CachedResends, ChunkCount;
    if k in s.transfers {
      match a
      case Loop(j, clock) => if j == k { LoopReach(k, s.transfers[k], Box(s, k), clock); }
      case NackArrives(j, indices) => if j == k { NackReach(k, s.transfers[k], Box(s, k), indices); }
      case _ =>
    }
  }

  /**
   * In every run, what was put on the wire for a transfer is within [0, next_index) if and only if
   * no NACK answered from the cache asked for more; such an answer is possible exactly while the
   * transfer is cached, no longer active, and stopped before its last chunk.
   */
  lemma {:induction false} WireWithinReachIff(hostile: set<string>, actions: seq<Action>, s: State, k: Key)
    ensures Run(hostile, actions) == Some(s) ==>
            && (k in s.transfers ==> (WithinReach(s.transfers[k]) <==> !EverOvershot(hostile, actions, k)))
            && (k !in s.transfers ==> !EverOvershot(hostile, actions, k))
  {
    hide Inv, Enabled, Apply, WithinReach, Overshoots;
    if Run(hostile, actions) == Some(s) && actions != [] {
      var n := |actions| - 1;
      var before := Run(hostile, actions[..n]).value;
      WireWithinReachIff(hostile, actions[..n], before, k);
      StepReach(hostile, before, actions[n], k);
      StepKeepsTransfers(hostile, before, actions[n], k);
    }
  }

  /** Transfers are never taken off the books, and a NACK can only overshoot for one that is on them. */
  lemma StepKeepsTransfers(hostile: set<string>, s: State, a: Action, k: Key)
    requires Inv(hostile, s) && Enabled(hostile, s, a)
    ensures k in s.transfers ==> k in Apply(hostile, s, a).transfers
    ensures k !in s.transfers ==> !Overshoots(s, a, k)
  {
    hide LinkOk, WithinCaps, DeliveriesAccounted, Receive, LinkNack, LinkLoop, ChunkCount;
  }

  /**
   * Safety: in every reachable state the sender's acked set is within what the receiver
   * accepted, which is within what was put on the wire; and while the send loop runs, as well as
   * after it until a NACK overshoots, that is within [0, nextIndex).
   */
  lemma AckedWithinAcceptedWithinSent(hostile: set<string>, actions: seq<Action>, s: State, k: Key)
    ensures Run(hostile, actions) == Some(s) && k in s.transfers ==>
            var t, i := s.transfers[k], Box(s, k);
            && t.sender.acked <= i.accepted
            && (forall j :: j in i.accepted ==> j < t.sender.Total() && OutChunk(k, t.sender, j) in t.wire)
            && (!t.sender.phase.Done? || !EverOvershot(hostile, actions, k) ==>
                forall j :: j in i.accepted ==> j < t.sender.nextIndex)
  {
    hide Run, EverOvershot, Valid, WellFormed, Covered, Chunk, ChunkCount;
    if Run(hostile, actions) == Some(s) && k in s.transfers {
      var t, i := s.transfers[k], Box(s, k);
      LinkAccepted(k, t, i);
      WireWithinReachIff(hostile, actions, s, k);
      if !EverOvershot(hostile, actions, k) {
        forall j | j in i.accepted
          ensures j < t.sender.nextIndex
        {
          assert OutChunk(k, t.sender, j).index == j;
        }
      }
    }
  }

  // ---- A run that goes beyond ---------------------------------------------------------------------

  lemma RunSnoc(hostile: set<string>, actions: seq<Action>, s: State, a: Action)
    requires Run(hostile, actions) == Some(s) && Enabled(hostile, s, a)
    ensures Run(hostile, actions + [a]) == Some(Apply(hostile, s, a))
  {
    hide Inv, Enabled, Apply;
    assert (actions + [a])[..|actions|] == actions;
  }

  /** Every chunk that the loop has reached is on the wire. */
  ghost predicate ReachedOnWire(k: Key, t: Transfer) {
    forall j: nat :: j < t.sender.nextIndex ==> OutChunk(k, t.sender, j) in t.wire
  }

  lemma NothingReached(k: Key, weights: Bytes)
    ensures ReachedOnWire(k, Transfer(Start(weights, 0.0), {}, {}))
  {
  }

  lemma LoopReachesWire(k: Key, t: Transfer, i: Inbox, clock: real)
    requires LinkOk(k, t, i) && ReachedOnWire(k, t)
    ensures ReachedOnWire(k, LinkLoop(k, t, i, clock))
  {
    hide LoopStep, Valid, ChunkCount, Chunk, InboxOk, WireOk, AcksOk;
    LoopReaches(t.sender, clock);
    var t' := LinkLoop(k, t, i, clock);
    forall j: nat | j < t'.sender.nextIndex
      ensures OutChunk(k, t'.sender, j) in t'.wire
    {
      assert OutChunk(k, t'.sender, j) == OutChunk(k, t.sender, j);
    }
  }

  /** A loop step reaches at most one more chunk, by sending it. */
  lemma LoopReaches(s: Sender, clock: real)
    requires Valid(s)
    ensures var s' := LoopStep(s, clock);
            && s'.weights == s.weights
            && (s'.nextIndex == s.nextIndex || (s'.nextIndex == s.nextIndex + 1 && s'.sends == s.sends + [s.nextIndex]))
  {
    hide SumAttempts, InFlight, Window, ChunkCount;
    match s.phase
    case Done(_) =>
    case Top =>
    case Retry(_, _) =>
    case Fill =>
  }

  lemma LinkOf(hostile: set<string>, s: State, k: Key)
    requires Inv(hostile, s) && k in s.transfers
    ensures LinkOk(k, s.transfers[k], Box(s, k))
  {
  }

  /** Any run of the send loop alone happens in the system, before anything arrives. */
  lemma {:induction false} LoopsHappen(hostile: set<string>, k: Key, weights: Bytes, es: seq<SenderEvent>)
    returns (actions: seq<Action>, s: State)
    requires k.peer !in hostile && OnlyLoops(es)
    requires |weights| > CHUNK_SIZE && ChunkCount(|weights|, CHUNK_SIZE) < UINT32
    ensures Run(hostile, actions) == Some(s) && s.inboxes == map[] && k in s.transfers
    ensures s.transfers[k].sender == RunSender(weights, 0.0, es) && ReachedOnWire(k, s.transfers[k])
  {
    hide Inv, Valid, LoopStep, ChunkCount, ReachedOnWire;
    if es == [] {
      actions := [] + [Begin(k, weights, 0.0)];
      s := INITIAL.(transfers := map[k := Transfer(Start(weights, 0.0), {}, {})]);
      assert Run(hostile, []) == Some(INITIAL);
      RunSnoc(hostile, [], INITIAL, Begin(k, weights, 0.0));
      NothingReached(k, weights);
    } else {
      var n := |es| - 1;
      var before, b := LoopsHappen(hostile, k, weights, es[..n]);
      var a := Action.Loop(k, es[n].clock);
      hide Run;
      RunSnoc(hostile, before, b, a);
      LinkOf(hostile, b, k);
      LoopReachesWire(k, b.transfers[k], Box(b, k), es[n].clock);
      actions, s := before + [a], Apply(hostile, b, a);
    }
  }

  /** The receiver would take chunk index of this transfer now. */
  ghost predicate WouldTake(s: State, k: Key, index: nat) {
    var box := Box(s, k);
    box.completedAt.None? && index !in box.recent && (box.buffer.Some? || Room(s.inboxes, k.peer))
  }

  lemma ReadyMeansStored(s: State, k: Key, weights: Bytes, index: nat, env: Env)
    requires WouldTake(s, k, index) && Welcome(env) && InboxOk(Box(s, k), weights, CHUNK_SIZE)
    requires index < ChunkCount(|weights|, CHUNK_SIZE) <= MAX_CHUNKS_PER_TRANSFER
    ensures index in Receive(Box(s, k), Room(s.inboxes, k.peer), env,
        HonestChunk(k, weights, CHUNK_SIZE, index)).0.accepted
  {
    hide Chunk, ChunkCount, Store, InboxOk, Room, Indices;
    var i := Box(s, k);
    SameInboxOk(i, weights, CHUNK_SIZE, index, env.now);
    StoreKeepsOk(i.(recent := i.recent[index := env.now]), env, k, weights, CHUNK_SIZE, index);
  }

  /** Answering a NACK for next_index from the cache puts that chunk on the wire and changes nothing else. */
  lemma NackResends(hostile: set<string>, s: State, k: Key)
    requires Inv(hostile, s) && k in s.transfers && CacheExposed(s.transfers[k].sender)
    ensures var sender := s.transfers[k].sender;
            var s' := Apply(hostile, s, NackArrives(k, [sender.nextIndex]));
            && s'.inboxes == s.inboxes && k in s'.transfers && s'.transfers[k].sender == sender
            && OutChunk(k, sender, sender.nextIndex) in s'.transfers[k].wire
    ensures Enabled(hostile, s, NackArrives(k, [s.transfers[k].sender.nextIndex]))
    ensures s.transfers[k].sender.nextIndex < s.transfers[k].sender.Total()
    ensures WouldTake(s, k, s.transfers[k].sender.nextIndex) ==>
            WouldTake(Apply(hostile, s, NackArrives(k, [s.transfers[k].sender.nextIndex])), k,
                s.transfers[k].sender.nextIndex)
  {
    hide Capped, ChunkCount, Inv;
    var t := s.transfers[k];
    SingleNack(t.sender.nextIndex, t.sender.Total());
    var again := CachedResends(t.sender, [t.sender.nextIndex]);
    assert again[0] == t.sender.nextIndex;
  }

  /** A chunk on the wire that the receiver would take is accepted when it arrives. */
  lemma ArrivalIsAccepted(hostile: set<string>, s: State, k: Key, index: nat, env: Env)
    requires Inv(hostile, s) && k in s.transfers && WouldTake(s, k, index) && Welcome(env)
    requires index < s.transfers[k].sender.Total() <= MAX_CHUNKS_PER_TRANSFER
    requires OutChunk(k, s.transfers[k].sender, index) in s.transfers[k].wire
    ensures Enabled(hostile, s, ChunkArrives(OutChunk(k, s.transfers[k].sender, index), env))
    ensures var s' := Apply(hostile, s, ChunkArrives(OutChunk(k, s.transfers[k].sender, index), env));
            && k in s'.transfers && s'.transfers[k].sender == s.transfers[k].sender && index in Box(s', k).accepted
  {
    hide Receive, Room, WouldTake, ChunkCount, Chunk, Valid, InboxOk, WireOk, AcksOk, WithinCaps, DeliveriesAccounted;
    ReadyMeansStored(s, k, s.transfers[k].sender.weights, index, env);
  }

  /**
   * From every reachable state in which a NACK for this transfer would be answered from a cache
   * beyond next_index and the receiver would take the chunk, two more steps take accepted beyond it.
   */
  lemma ExposedCanPass(hostile: set<string>, actions: seq<Action>, s: State, k: Key, env: Env)
    returns (more: seq<Action>, s': State)
    requires Run(hostile, actions) == Some(s) && k in s.transfers && CacheExposed(s.transfers[k].sender)
    requires s.transfers[k].sender.Total() <= MAX_CHUNKS_PER_TRANSFER && Welcome(env)
    requires WouldTake(s, k, s.transfers[k].sender.nextIndex)
    ensures Run(hostile, actions + more) == Some(s') && k in s'.transfers
    ensures s'.transfers[k].sender == s.transfers[k].sender && s.transfers[k].sender.nextIndex in Box(s', k).accepted
  {
    hide *;
    var sender := s.transfers[k].sender;
    var nack := NackArrives(k, [sender.nextIndex]);
    var arrival := ChunkArrives(OutChunk(k, sender, sender.nextIndex), env);
    NackResends(hostile, s, k);
    var mid := Apply(hostile, s, nack);
    RunSnoc(hostile, actions, s, nack);
    ArrivalIsAccepted(hostile, mid, k, sender.nextIndex, env);
    RunSnoc(hostile, actions + [nack], mid, arrival);
    more, s' := [nack, arrival], Apply(hostile, mid, arrival);
    assert actions + [nack] + [arrival] == actions + more;
  }

  /**
   * And such states are reachable: for every transfer of more than 16 chunks there is a run in
   * which the receiver has accepted chunk 16 although next_index is 16.
   */
  lemma AcceptedPassesNextIndex(hostile: set<string>, k: Key, weights: Bytes, env: Env)
    returns (actions: seq<Action>, s: State)
    requires k.peer !in hostile && Welcome(env)
    requires CHUNK_WINDOW_INITIAL < ChunkCount(|weights|, CHUNK_SIZE) <= MAX_CHUNKS_PER_TRANSFER
    ensures Run(hostile, actions) == Some(s) && k in s.transfers
    ensures s.transfers[k].sender.nextIndex == CHUNK_WINDOW_INITIAL && CHUNK_WINDOW_INITIAL in Box(s, k).accepted
  {
    var es := LoopCanGiveUp(weights);
    assert |weights| > CHUNK_SIZE by { ChunksReachTheEnd(|weights|, CHUNK_SIZE); }
    hide Run, Inv, Valid, RunSender, ChunkCount;
    var first, s1 := LoopsHappen(hostile, k, weights, es);
    EmptyHasRoom(k.peer);
    assert WouldTake(s1, k, CHUNK_WINDOW_INITIAL);
    var more, s2 := ExposedCanPass(hostile, first, s1, k, env);
    actions, s := first + more, s2;
  }

  lemma EmptyHasRoom(peer: string)
    ensures Room(map[], peer)
  {
    assert Open(map[]) == {};
  }

  // ---- Completion is possible ---------------------------------------------------------------------

  /**
   * The receiver would take every chunk of this transfer that it has not stored: it has completed
   * the transfer, or has a buffer or room for one and remembers no other chunk as recent.
   */
  ghost predicate Admitting(s: State, k: Key) {
    var box := Box(s, k);
    || box.completedAt.Some?
    || ((box.buffer.Some? || Room(s.inboxes, k.peer)) && forall j :: j in box.recent ==> j in Buffered(box))
  }

  /** Every chunk of the transfer is on the wire, and there are not too many. */
  ghost predicate AllOnWire(s: State, k: Key) {
    && k in s.transfers && s.transfers[k].sender.Total() <= MAX_CHUNKS_PER_TRANSFER
    && forall j: nat :: j < s.transfers[k].sender.Total() ==>
                          OutChunk(k, s.transfers[k].sender, j) in s.transfers[k].wire
  }

  /** An acknowledgement of every chunk of the transfer is on the wire. */
  ghost predicate FullyAcknowledged(t: Transfer) { t.sender.Total() < UINT32 && AckOfAll(t.sender) in t.acks }

  ghost function AckOfAll(sender: Sender): AckMsg
    requires sender.Total() < UINT32
  {
    AckMsg(sender.Total(), Packed(Indices(0, sender.Total())))
  }

  lemma LinkAdmits(k: Key, t: Transfer, i: Inbox, room: bool, env: Env, j: nat)
    requires LinkOk(k, t, i) && i.completedAt.None? && (i.buffer.Some? || room) && j !in i.recent && j !in Buffered(i)
    requires j < t.sender.Total() <= MAX_CHUNKS_PER_TRANSFER && Welcome(env)
    ensures var (t', i') := LinkReceive(t, i, room, env, OutChunk(k, t.sender, j));
            && t'.sender == t.sender && t'.wire == t.wire
            && (if Buffered(i) + {j} == Indices(0, t.sender.Total()) then FullyAcknowledged(t')
                else && i'.completedAt.None? && i'.buffer.Some? && Buffered(i') == Buffered(i) + {j}
                     && i'.recent.Keys == i.recent.Keys + {j})
  {
    hide Valid, InboxOk, WireOk, AcksOk, ChunkCount, Chunk, Indices, Packed, Store;
    var marked := i.(recent := i.recent[j := env.now]);
    SameInboxOk(i, t.sender.weights, CHUNK_SIZE, j, env.now);
    StoreReplies(marked, env, k, t.sender.weights, CHUNK_SIZE, j);
    StoreKeepsRecent(marked, env, OutChunk(k, t.sender, j));
    assert forall x :: x in Indices(0, t.sender.Total()) ==> x < UINT32;
  }

  lemma StoreKeepsRecent(i: Inbox, env: Env, msg: ChunkMsg)
    ensures Store(i, env, msg).0.recent == i.recent
  {
    hide Concat, Added, AckDue, IsFull, HasAll;
  }

  lemma CompletedReplies(k: Key, t: Transfer, i: Inbox, room: bool, env: Env, j: nat)
    requires LinkOk(k, t, i) && i.completedAt.Some? && j < t.sender.Total() && Welcome(env)
    ensures var (t', i') := LinkReceive(t, i, room, env, OutChunk(k, t.sender, j));
            t'.sender == t.sender && t'.wire == t.wire && FullyAcknowledged(t')
  {
    hide Valid, InboxOk, WireOk, AcksOk, ChunkCount, Chunk, Indices, Packed;
    assert forall x :: x in Indices(0, t.sender.Total()) ==> x < UINT32;
  }

  /** The arrival of a chunk that the receiver lacks brings the transfer one chunk nearer to completion. */
  lemma ArrivalProgress(hostile: set<string>, s: State, k: Key, j: nat, env: Env)
    requires Inv(hostile, s) && AllOnWire(s, k) && Admitting(s, k) && Welcome(env) && j < s.transfers[k].sender.Total()
    requires Box(s, k).completedAt.None? ==> j !in Buffered(Box(s, k))
    ensures var a := ChunkArrives(OutChunk(k, s.transfers[k].sender, j), env);
            && Enabled(hostile, s, a)
            && var s' := Apply(hostile, s, a);
               && AllOnWire(s', k) && s'.transfers[k].sender == s.transfers[k].sender
               && (Box(s, k).completedAt.Some? ==> FullyAcknowledged(s'.transfers[k]))
               && (FullyAcknowledged(s'.transfers[k])
                   || (Box(s', k).completedAt.None? && Admitting(s', k)
                       && Buffered(Box(s', k)) == Buffered(Box(s, k)) + {j}))
  {
    hide LinkOk, WithinCaps, DeliveriesAccounted, LinkReceive, Room, FullyAcknowledged, ChunkCount, Chunk, Indices;
    var t, i, room := s.transfers[k], Box(s, k), Room(s.inboxes, k.peer);
    if i.completedAt.Some? {
      CompletedReplies(k, t, i, room, env, j);
    } else {
      LinkAdmits(k, t, i, room, env, j);
    }
  }

  /** Chunks that the receiver lacks. */
  ghost function Lacking(s: State, k: Key): set<nat>
    requires k in s.transfers
  {
    Indices(0, s.transfers[k].sender.Total()) - Buffered(Box(s, k))
  }

  /** A receiver that has not completed the transfer lacks some chunk of it. */
  lemma SomethingLacks(hostile: set<string>, s: State, k: Key) returns (j: nat)
    requires Inv(hostile, s) && k in s.transfers
    ensures j < s.transfers[k].sender.Total() && (Box(s, k).completedAt.None? ==> j !in Buffered(Box(s, k)))
  {
    var t, i := s.transfers[k], Box(s, k);
    var total := t.sender.Total();
    assert LinkOk(k, t, i);
    assert total > 0 by { ChunksReachTheEnd(|t.sender.weights|, CHUNK_SIZE); }
    hide Inv, Valid, WireOk, AcksOk, ChunkCount, Chunk;
    if i.buffer.None? {
      j := 0;
    } else {
      assert |i.buffer.value.chunks.Keys| == |i.buffer.value.chunks|;
      j := MissingIndex(i.buffer.value.chunks.Keys, total);
    }
  }

  /** The missing chunks can arrive one after the other until everything is acknowledged. */
  lemma {:induction false} AllCanArrive(hostile: set<string>, actions: seq<Action>, s: State, k: Key, env: Env)
    returns (more: seq<Action>, s': State)
    requires Run(hostile, actions) == Some(s) && AllOnWire(s, k) && Admitting(s, k) && Welcome(env)
    ensures Run(hostile, actions + more) == Some(s') && k in s.transfers && k in s'.transfers
    ensures s'.transfers[k].sender == s.transfers[k].sender && FullyAcknowledged(s'.transfers[k])
    decreases |Lacking(s, k)|
  {
    hide *;
    OnWireMeans(s, k);
    var j := SomethingLacks(hostile, s, k);
    var a := ChunkArrives(OutChunk(k, s.transfers[k].sender, j), env);
    ArrivalProgress(hostile, s, k, j, env);
    RunSnoc(hostile, actions, s, a);
    var next := Apply(hostile, s, a);
    OnWireMeans(next, k);
    if FullyAcknowledged(next.transfers[k]) {
      more, s' := [a], next;
    } else {
      FewerLacking(s, next, k, j);
      var rest, last := AllCanArrive(hostile, actions + [a], next, k, env);
      more, s' := [a] + rest, last;
      assert actions + [a] + rest == actions + more;
    }
  }

  lemma OnWireMeans(s: State, k: Key)
    requires AllOnWire(s, k)
    ensures k in s.transfers
  {
  }

  lemma FewerLacking(s: State, s': State, k: Key, j: nat)
    requires k in s.transfers && k in s'.transfers && s'.transfers[k].sender == s.transfers[k].sender
    requires j < s.transfers[k].sender.Total() && (Box(s, k).completedAt.None? ==> j !in Buffered(Box(s, k)))
    requires Buffered(Box(s', k)) == Buffered(Box(s, k)) + {j} && j !in Buffered(Box(s, k))
    ensures |Lacking(s', k)| < |Lacking(s, k)|
  {
    hide ChunkCount;
    var before, after := Lacking(s, k), Lacking(s', k);
    assert j in before && after == before - {j};
  }

  /** An acknowledgement of everything completes an active transfer. */
  lemma AckCompletes(hostile: set<string>, s: State, k: Key)
    requires Inv(hostile, s) && k in s.transfers
    requires s.transfers[k].sender.registered && FullyAcknowledged(s.transfers[k])
    ensures s.transfers[k].sender.Total() < UINT32
    ensures var a := AckArrives(k, AckOfAll(s.transfers[k].sender));
            && Enabled(hostile, s, a)
            && k in Apply(hostile, s, a).transfers && Apply(hostile, s, a).transfers[k].sender.completed
            && Apply(hostile, s, a).transfers[k].sender.weights == s.transfers[k].sender.weights
  {
    hide Inv, ChunkCount, Packed, WellFormed, Covered;
    var sender := s.transfers[k].sender;
    var all := Indices(0, sender.Total());
    AckMerges(sender, all);
    IndexCount(0, sender.Total());
    SubsetCardinality(all, sender.acked + all);
  }

  /**
   * From every reachable state with an active sender, all its chunks on the wire and an admitting
   * receiver, some continuation completes the transfer.
   */
  lemma CanComplete(hostile: set<string>, actions: seq<Action>, s: State, k: Key, env: Env)
    returns (more: seq<Action>, s': State)
    requires Run(hostile, actions) == Some(s) && AllOnWire(s, k) && Admitting(s, k) && Welcome(env)
    requires k in s.transfers && s.transfers[k].sender.registered
    ensures Run(hostile, actions + more) == Some(s') && k in s'.transfers && s'.transfers[k].sender.completed
    ensures s'.transfers[k].sender.weights == s.transfers[k].sender.weights
  {
    hide *;
    var arrive, full := AllCanArrive(hostile, actions, s, k, env);
    AckCompletes(hostile, full, k);
    var a := AckArrives(k, AckOfAll(full.transfers[k].sender));
    RunSnoc(hostile, actions + arrive, full, a);
    more, s' := arrive + [a], Apply(hostile, full, a);
    assert actions + arrive + [a] == actions + more;
  }

  /** Every honest transfer, of any size that the receiver takes, can run from its beginning to completion. */
  lemma TransferCanComplete(hostile: set<string>, k: Key, weights: Bytes, env: Env)
    returns (actions: seq<Action>, s: State)
    requires k.peer !in hostile && Welcome(env) && |weights| > CHUNK_SIZE
    requires ChunkCount(|weights|, CHUNK_SIZE) <= MAX_CHUNKS_PER_TRANSFER
    ensures Run(hostile, actions) == Some(s) && k in s.transfers
    ensures s.transfers[k].sender.weights == weights && s.transfers[k].sender.completed
  {
    var es := CanSendAll(weights, ChunkCount(|weights|, CHUNK_SIZE));
    hide Run, Inv, Valid, RunSender, ChunkCount;
    var first, s1 := LoopsHappen(hostile, k, weights, es);
    EmptyHasRoom(k.peer);
    assert AllOnWire(s1, k) && Admitting(s1, k);
    hide AllOnWire, Admitting;
    var more, s2 := CanComplete(hostile, first, s1, k, env);
    actions, s := first + more, s2;
  }

  // ---- Acknowledged chunks ------------------------------------------------------------------------

  /** In every reachable state the loop of an honest transfer never sends an acknowledged chunk. */
  lemma NeverSendsAcknowledged(hostile: set<string>, actions: seq<Action>, s: State, k: Key, clock: real)
    ensures Run(hostile, actions) == Some(s) && k in s.transfers ==>
            var sender := s.transfers[k].sender;
            && Valid(sender)
            && (RetryPass.Sends(sender, clock) ==> RetryPass.SentNow(sender, clock) !in sender.acked)
  {
    hide Run, EverOvershot, InFlight, Window, ChunkCount, Chunk, LoopStep, SumAttempts;
    if Run(hostile, actions) == Some(s) && k in s.transfers {
      AckedWithinAcceptedWithinSent(hostile, actions, s, k);
      RetryPass.SendsAcknowledgedIff(s.transfers[k].sender, clock);
    }
  }
}
