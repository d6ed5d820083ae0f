/**
 * The receiver side of a chunked model transfer: admission caps, the duplicate filter, the
 * reassembly buffer and the completed-transfer registry, per (peer, transfer) pair.
 */
module ChunkReceiver {
  import opened Wrappers
  import opened ChunkRanges
  import opened Chunking

  const MAX_INCOMING_MESSAGE_SIZE := 150 * 1024 * 1024
  const CHUNK_ACK_INTERVAL := 0.25
  const CHUNK_ACK_EVERY := 16
  const MAX_CONCURRENT_TRANSFERS_PER_PEER := 8
  const MAX_TOTAL_TRANSFERS := 50
  const MAX_CHUNKS_PER_TRANSFER := 300_000
  const BUFFER_TIMEOUT := 900.0
  const COMPLETED_TRANSFER_TTL := 600.0
  const RECENT_CHUNK_TTL := 120.0

  /** Buffers are keyed by the authenticated endpoint and the transfer id. */
  datatype Key = Key(peer: string, transfer: string)

  /** The fields of a chunk payload that decide what happens to it. */
  datatype ChunkMsg = ChunkMsg(key: Key, index: nat, total: nat, data: Bytes)

  /**
   * What the surrounding code says about a packet: the clock, the identity and signature
   * checks, the round gate, the per-peer byte budget, and whether the bytes deserialize.
   */
  datatype Env = Env(now: real, authentic: bool, roundOk: bool, withinBytes: bool, deserializes: bool)

  datatype Buffer = Buffer(total: nat, chunks: map<nat, Bytes>, createdAt: real, lastAckAt: real, sinceAck: nat)

  datatype AckReply = AckReply(total: nat, indices: set<nat>)

  /**
   * Everything the receiver keeps for one key. The fields after completedAt are history: the
   * indices ever stored, the byte strings reassembled and handed to the callback, whether a
   * buffer ever expired, and how often the completed entry was purged.
   */
  datatype Inbox = Inbox(
    buffer: Option<Buffer>,
    recent: map<nat, real>,
    completedAt: Option<real>,
    accepted: set<nat>,
    reassembled: seq<Bytes>,
    delivered: seq<Bytes>,
    expired: bool,
    purges: nat)

  const EMPTY := Inbox(None, map[], None, {}, [], [], false, 0)

  // ---- Handling one chunk --------------------------------------------------------

  /** A full buffer: reassemble, drop the buffer, check size, deserialize, register and deliver. */
  function Complete(i: Inbox, b: Buffer, env: Env): Inbox {
    if !HasAll(b.chunks, b.total) then i.(buffer := None)
    else
      var bytes := Concat(InOrder(b.chunks, b.total));
      var done := i.(buffer := None, reassembled := i.reassembled + [bytes]);
      if |bytes| > MAX_INCOMING_MESSAGE_SIZE || !env.deserializes then done
      else done.(completedAt := Some(env.now), delivered := i.delivered + [bytes])
  }

  function Opened(i: Inbox, env: Env, msg: ChunkMsg): Buffer {
    if i.buffer.Some? then i.buffer.value else Buffer(msg.total, map[], env.now, env.now, 0)
  }

  /** The buffer with the chunk added; a repeated index overwrites without counting. */
  function Added(b: Buffer, msg: ChunkMsg): Buffer {
    b.(chunks := b.chunks[msg.index := msg.data],
       sinceAck := if msg.index in b.chunks then b.sinceAck else b.sinceAck + 1)
  }

  predicate IsFull(b: Buffer) { |b.chunks| == b.total }

  predicate AckDue(b: Buffer, now: real) {
    IsFull(b) || b.sinceAck >= CHUNK_ACK_EVERY || now - b.lastAckAt >= CHUNK_ACK_INTERVAL
  }

  function Store(i: Inbox, env: Env, msg: ChunkMsg): (r: (Inbox, Option<AckReply>)) {
    var b := Added(Opened(i, env, msg), msg);
    var due := AckDue(b, env.now);
    var kept := if due then b.(lastAckAt := env.now, sinceAck := 0) else b;
    var ack := if due then Some(AckReply(b.total, b.chunks.Keys)) else None;
    var stored := i.(buffer := Some(kept), accepted := i.accepted + {msg.index});
    (if IsFull(b) then Complete(stored, kept, env) else stored, ack)
  }

  /** A chunk that the duplicate filter knows is acknowledged if it is buffered, else ignored. */
  function Repeated(i: Inbox, msg: ChunkMsg, now: real): (r: (Inbox, Option<AckReply>)) {
    if i.buffer.Some? && msg.index in i.buffer.value.chunks then
      var b := i.buffer.value;
      (i.(buffer := Some(b.(lastAckAt := now, sinceAck := 0))), Some(AckReply(b.total, b.chunks.Keys)))
    else (i, None)
  }

  /** on_model_chunk. room is the verdict of the transfer-count caps on opening a new buffer. */
  function Receive(i: Inbox, room: bool, env: Env, msg: ChunkMsg): (r: (Inbox, Option<AckReply>)) {
    if !env.authentic then (i, None)
    else if i.completedAt.Some? then (i, Some(AckReply(msg.total, Indices(0, msg.total))))
    else if msg.index in i.recent then Repeated(i, msg, env.now)
    else
      var seen := i.(recent := i.recent[msg.index := env.now]);
      if msg.total > MAX_CHUNKS_PER_TRANSFER || !env.roundOk || (i.buffer.None? && !(room && env.withinBytes))
      then (seen, None)
      else Store(seen, env, msg)
  }

  // ---- At most once ----------------------------------------------------------------

  /** Callbacks scheduled so far: one per purge of the completed entry, plus one if it is there now. */
  ghost predicate DeliveriesAccounted(i: Inbox) {
    |i.delivered| == i.purges + if i.completedAt.Some? then 1 else 0
  }

  /** Whatever arrives, from whomever, the count stays exact. */
  lemma ReceiveAccountsDeliveries(i: Inbox, room: bool, env: Env, msg: ChunkMsg)
    requires DeliveriesAccounted(i)
    ensures DeliveriesAccounted(Receive(i, room, env, msg).0)
  {
    hide Concat;
  }

  // ---- An honest sender ----------------------------------------------------------------

  /** The chunk that an honest sender of weights puts on the wire for index. */
  function HonestChunk(key: Key, weights: Bytes, size: nat, index: nat): ChunkMsg
    requires size > 0
  {
    ChunkMsg(key, index, ChunkCount(|weights|, size), Chunk(weights, index, size))
  }

  ghost predicate BufferOk(b: Buffer, weights: Bytes, size: nat, accepted: set<nat>)
    requires size > 0
  {
    && b.total == ChunkCount(|weights|, size)
    && b.chunks.Keys <= accepted
    && (forall k :: k in b.chunks ==> b.chunks[k] == Chunk(weights, k, size))
  }

  /** What the receiver keeps for the transfer of an honest sender of weights. */
  ghost predicate InboxOk(i: Inbox, weights: Bytes, size: nat)
    requires size > 0
  {
    var total := ChunkCount(|weights|, size);
    && (forall k :: k in i.accepted ==> k < total)
    && (i.buffer.Some? ==> BufferOk(i.buffer.value, weights, size, i.accepted) && !IsFull(i.buffer.value))
    && (i.completedAt.Some? ==> i.accepted == Indices(0, total))
    && (forall j :: 0 <= j < |i.reassembled| ==> i.reassembled[j] == weights)
    && (forall j :: 0 <= j < |i.delivered| ==> i.delivered[j] == weights)
    && (!i.expired && i.reassembled == [] ==> i.accepted == if i.buffer.Some? then i.buffer.value.chunks.Keys else {})
  }

  /** A full buffer of honest chunks holds every index, and in order they are the weights. */
  lemma FullBufferReassembles(b: Buffer, weights: Bytes, size: nat, accepted: set<nat>)
    requires size > 0 && BufferOk(b, weights, size, accepted) && IsFull(b)
    requires forall k :: k in accepted ==> k < b.total
    ensures b.chunks.Keys == Indices(0, b.total) && HasAll(b.chunks, b.total)
    ensures Concat(InOrder(b.chunks, b.total)) == weights
  {
    hide Concat, Chunk, ChunkCount, Indices;
    assert |b.chunks.Keys| == b.total;
    FullSubset(b.chunks.Keys, b.total);
    assert InOrder(b.chunks, b.total) == Chunks(weights, b.total, size);
    JoinAll(weights, size);
  }

  lemma AddedBufferOk(b: Buffer, weights: Bytes, size: nat, accepted: set<nat>, key: Key, index: nat)
    requires size > 0 && BufferOk(b, weights, size, accepted)
    ensures BufferOk(Added(b, HonestChunk(key, weights, size, index)), weights, size, accepted + {index})
    ensures Added(b, HonestChunk(key, weights, size, index)).chunks.Keys == b.chunks.Keys + {index}
  {
  }

  /** Completing a full buffer keeps the inbox right. */
  lemma CompleteKeepsOk(i: Inbox, b: Buffer, env: Env, weights: Bytes, size: nat)
    requires size > 0 && BufferOk(b, weights, size, i.accepted) && IsFull(b)
    requires i.completedAt.None? && forall k :: k in i.accepted ==> k < ChunkCount(|weights|, size)
    requires forall j :: 0 <= j < |i.reassembled| ==> i.reassembled[j] == weights
    requires forall j :: 0 <= j < |i.delivered| ==> i.delivered[j] == weights
    ensures InboxOk(Complete(i, b, env), weights, size) && Complete(i, b, env).accepted == i.accepted
  {
    hide Concat, Chunk, ChunkCount, Indices, HasAll;
    FullBufferReassembles(b, weights, size, i.accepted);
    assert forall k :: k in Indices(0, b.total) <==> 0 <= k < b.total;
    assert i.accepted == Indices(0, b.total);
  }

  /** Storing an honest chunk keeps the inbox right, and the acknowledgement claims only accepted indices. */
  lemma StoreKeepsOk(i: Inbox, env: Env, key: Key, weights: Bytes, size: nat, index: nat)
    requires size > 0 && InboxOk(i, weights, size) && i.completedAt.None? && index < ChunkCount(|weights|, size)
    ensures var r := Store(i, env, HonestChunk(key, weights, size, index));
            && InboxOk(r.0, weights, size)
            && r.0.accepted == i.accepted + {index}
            && (r.1.Some? ==> r.1.value.total == ChunkCount(|weights|, size) && r.1.value.indices <= r.0.accepted)
  {
    hide Chunk, ChunkCount, Indices, AckDue, Complete;
    var msg := HonestChunk(key, weights, size, index);
    var base := Opened(i, env, msg);
    assert BufferOk(base, weights, size, i.accepted);
    AddedBufferOk(base, weights, size, i.accepted, key, index);
    var b := Added(base, msg);
    hide Added;
    var kept := if AckDue(b, env.now) then b.(lastAckAt := env.now, sinceAck := 0) else b;
    if IsFull(b) {
      CompleteKeepsOk(i.(buffer := Some(kept), accepted := i.accepted + {index}), kept, env, weights, size);
    }
  }

  lemma ReceiveKeepsOk(i: Inbox, room: bool, env: Env, key: Key, weights: Bytes, size: nat, index: nat)
    requires size > 0 && InboxOk(i, weights, size) && index < ChunkCount(|weights|, size)
    ensures var r := Receive(i, room, env, HonestChunk(key, weights, size, index));
            && InboxOk(r.0, weights, size)
            && i.accepted <= r.0.accepted <= i.accepted + {index}
            && (r.1.Some? ==> r.1.value.total == ChunkCount(|weights|, size) && r.1.value.indices <= r.0.accepted)
  {
    hide Concat, Chunk, ChunkCount, Store, Indices;
    var msg := HonestChunk(key, weights, size, index);
    var seen := i.(recent := i.recent[index := env.now]);
    if i.completedAt.None? { StoreKeepsOk(seen, env, key, weights, size, index); }
  }

  /** As long as the bytes fit and deserialise, whatever is reassembled is delivered. */
  lemma ReceiveDelivers(i: Inbox, room: bool, env: Env, key: Key, weights: Bytes, size: nat, index: nat)
    requires size > 0 && InboxOk(i, weights, size) && index < ChunkCount(|weights|, size)
    requires |weights| <= MAX_INCOMING_MESSAGE_SIZE && env.deserializes && i.delivered == i.reassembled
    ensures var r := Receive(i, room, env, HonestChunk(key, weights, size, index)).0; r.delivered == r.reassembled
  {
    hide Concat, Chunk, ChunkCount, Indices, Added, AckDue, HasAll;
    ReceiveKeepsOk(i, room, env, key, weights, size, index);
    var r := Receive(i, room, env, HonestChunk(key, weights, size, index)).0;
    if |r.reassembled| > |i.reassembled| { assert r.reassembled[|i.reassembled|] == weights; }
  }

  // ---- Completeness --------------------------------------------------------------------

  /** Nothing outside the protocol objects to the packet. */
  predicate Welcome(env: Env) { env.authentic && env.roundOk && env.withinBytes && env.deserializes }

  /** A chunk with the verdicts it meets: room is that of the transfer-count caps. */
  datatype Arrival = Arrival(index: nat, room: bool, env: Env)

  /** The inbox after honest chunks arrived in the given order. */
  function Feed(key: Key, weights: Bytes, size: nat, arrivals: seq<Arrival>): Inbox
    requires size > 0
  {
    if arrivals == [] then EMPTY
    else
      var a := arrivals[|arrivals| - 1];
      var before := Feed(key, weights, size, arrivals[..|arrivals| - 1]);
      Receive(before, a.room, a.env, HonestChunk(key, weights, size, a.index)).0
  }

  /** The indices that have arrived with a valid identity and signature. */
  function Seen(arrivals: seq<Arrival>): set<nat> {
    if arrivals == [] then {}
    else
      var a := arrivals[|arrivals| - 1];
      Seen(arrivals[..|arrivals| - 1]) + if a.env.authentic then {a.index} else {}
  }

  /** The round gate lets the chunk in, and there is a buffer or leave to open one. */
  predicate Admits(a: Arrival, taken: set<nat>) {
    a.env.roundOk && (taken != {} || (a.room && a.env.withinBytes))
  }

  /** The indices admitted when they first arrived; a chunk refused then is not looked at again. */
  function Taken(arrivals: seq<Arrival>): set<nat> {
    if arrivals == [] then {}
    else
      var front, a := arrivals[..|arrivals| - 1], arrivals[|arrivals| - 1];
      if a.env.authentic && a.index !in Seen(front) && Admits(a, Taken(front))
      then Taken(front) + {a.index} else Taken(front)
  }

  /** Exactly the chunks got are here: all of them delivered once, or some of them still buffered. */
  ghost predicate Progress(i: Inbox, weights: Bytes, size: nat, got: set<nat>, seen: set<nat>)
    requires size > 0
  {
    && InboxOk(i, weights, size) && got <= seen <= Indices(0, ChunkCount(|weights|, size))
    && if got == Indices(0, ChunkCount(|weights|, size)) then
         i.completedAt.Some? && i.buffer.None? && i.delivered == [weights]
       else
         && i.completedAt.None? && i.delivered == [] && i.reassembled == [] && !i.expired && i.recent.Keys == seen
         && (if got == {} then i.buffer.None? else i.buffer.Some? && i.buffer.value.chunks.Keys == got)
  }

  /** What storing does to an inbox, by whether the buffer is then full. */
  lemma StoreSplits(i: Inbox, env: Env, msg: ChunkMsg)
    ensures var b, r := Added(Opened(i, env, msg), msg), Store(i, env, msg).0;
            var kept := if AckDue(b, env.now) then b.(lastAckAt := env.now, sinceAck := 0) else b;
            var stored := i.(buffer := Some(kept), accepted := i.accepted + {msg.index});
            r == if IsFull(b) then Complete(stored, kept, env) else stored
  {
    hide Added, Opened, AckDue, Complete, IsFull;
  }

  /** Adding an honest chunk to the buffer of a sound inbox. */
  lemma AddedIsSound(i: Inbox, env: Env, key: Key, weights: Bytes, size: nat, index: nat)
    requires size > 0 && InboxOk(i, weights, size) && i.completedAt.None? && index < ChunkCount(|weights|, size)
    ensures var msg := HonestChunk(key, weights, size, index);
            var base := Opened(i, env, msg);
            var b := Added(base, msg);
            && InboxOk(Store(i, env, msg).0, weights, size)
            && BufferOk(b, weights, size, i.accepted + {index}) && b.chunks.Keys == base.chunks.Keys + {index}
            && (IsFull(b) <==> b.chunks.Keys == Indices(0, ChunkCount(|weights|, size)))
            && forall k :: k in i.accepted + {index} ==> k < b.total
  {
    hide Chunk, ChunkCount, Indices, InboxOk, Store;
    var msg := HonestChunk(key, weights, size, index);
    SameInboxOk(i, weights, size, index, env.now);
    StoreKeepsOk(i, env, key, weights, size, index);
    OpenedOk(i, env, key, weights, size, index);
    var base := Opened(i, env, msg);
    hide Opened;
    AddedBufferOk(base, weights, size, i.accepted, key, index);
    var b := Added(base, msg);
    hide Added;
    assert |b.chunks.Keys| == |b.chunks|;
    FullIffAll(b.chunks.Keys, b.total);
  }

  lemma StoreProgress(i: Inbox, env: Env, key: Key, weights: Bytes, size: nat, got: set<nat>, seen: set<nat>,
                      index: nat)
    requires size > 0 && |weights| <= MAX_INCOMING_MESSAGE_SIZE && env.deserializes
    requires Progress(i, weights, size, got, seen) && got != Indices(0, ChunkCount(|weights|, size))
    requires index < ChunkCount(|weights|, size) && index !in seen
    ensures var marked := i.(recent := i.recent[index := env.now]);
            var r := Store(marked, env, HonestChunk(key, weights, size, index)).0;
            Progress(r, weights, size, got + {index}, seen + {index})
  {
    hide Chunk, ChunkCount, Indices, AckDue, Complete, InboxOk, BufferOk, Store, IsFull;
    var marked := i.(recent := i.recent[index := env.now]);
    var msg := HonestChunk(key, weights, size, index);
    var base := Opened(marked, env, msg);
    assert base.chunks.Keys == got;
    hide Opened;
    SameInboxOk(i, weights, size, index, env.now);
    AddedIsSound(marked, env, key, weights, size, index);
    StoreSplits(marked, env, msg);
    var b := Added(base, msg);
    hide Added;
    if IsFull(b) {
      var kept := if AckDue(b, env.now) then b.(lastAckAt := env.now, sinceAck := 0) else b;
      SameChunksSound(b, kept, weights, size, i.accepted + {index});
      CompleteDelivers(marked.(buffer := Some(kept), accepted := i.accepted + {index}), kept, env, weights, size);
    }
  }

  lemma SameChunksSound(b: Buffer, kept: Buffer, weights: Bytes, size: nat, accepted: set<nat>)
    requires size > 0 && BufferOk(b, weights, size, accepted) && IsFull(b)
    requires kept == b.(lastAckAt := kept.lastAckAt, sinceAck := kept.sinceAck)
    ensures BufferOk(kept, weights, size, accepted) && IsFull(kept)
  {
  }

  /** Marking a chunk as recent and opening an empty buffer disturb nothing. */
  lemma SameInboxOk(i: Inbox, weights: Bytes, size: nat, index: nat, now: real)
    requires size > 0 && InboxOk(i, weights, size)
    ensures InboxOk(i.(recent := i.recent[index := now]), weights, size)
    ensures forall k :: k in i.accepted ==> k < ChunkCount(|weights|, size)
  {
  }

  lemma OpenedOk(i: Inbox, env: Env, key: Key, weights: Bytes, size: nat, index: nat)
    requires size > 0 && InboxOk(i, weights, size)
    ensures BufferOk(Opened(i, env, HonestChunk(key, weights, size, index)), weights, size, i.accepted)
  {
  }

  lemma CompleteDelivers(i: Inbox, b: Buffer, env: Env, weights: Bytes, size: nat)
    requires size > 0 && BufferOk(b, weights, size, i.accepted) && IsFull(b) && env.deserializes
    requires |weights| <= MAX_INCOMING_MESSAGE_SIZE && forall k :: k in i.accepted ==> k < b.total
    ensures var done := Complete(i, b, env);
            done.completedAt.Some? && done.buffer.None? && done.delivered == i.delivered + [weights]
  {
    hide Concat, Chunk, ChunkCount, Indices, HasAll;
    FullBufferReassembles(b, weights, size, i.accepted);
  }

  lemma FullIffAll(S: set<nat>, n: nat)
    requires forall k :: k in S ==> k < n
    ensures |S| == n <==> S == Indices(0, n)
  {
    if |S| == n { FullSubset(S, n); }
    IndexCount(0, n);
  }

  lemma ReceiveProgress(i: Inbox, a: Arrival, key: Key, weights: Bytes, size: nat, got: set<nat>, seen: set<nat>)
    requires size > 0 && |weights| <= MAX_INCOMING_MESSAGE_SIZE && a.env.deserializes
    requires a.index < ChunkCount(|weights|, size) <= MAX_CHUNKS_PER_TRANSFER && Progress(i, weights, size, got, seen)
    ensures var taken := a.env.authentic && a.index !in seen && Admits(a, got);
            Progress(Receive(i, a.room, a.env, HonestChunk(key, weights, size, a.index)).0, weights, size,
                     if taken then got + {a.index} else got, seen + if a.env.authentic then {a.index} else {})
  {
    hide Concat, Chunk, ChunkCount, Indices, Store, InboxOk;
    ReceiveKeepsOk(i, a.room, a.env, key, weights, size, a.index);
    assert a.index in Indices(0, ChunkCount(|weights|, size));
    if a.env.authentic {
      if i.completedAt.Some? || a.index in seen {
        assert a.index in seen && seen + {a.index} == seen;
      } else if Admits(a, got) {
        StoreProgress(i, a.env, key, weights, size, got, seen, a.index);
      }
    } else {
      assert seen + {} == seen;
    }
  }

  /**
   * Honest chunks arriving in any order, with any repetitions, clock readings and verdicts: the
   * model is delivered, once, exactly when every index was admitted at its first authentic
   * arrival; until then the chunks that were are buffered. A chunk refused at its first arrival
   * stays refused while the duplicate filter remembers it.
   */
  lemma {:induction false} DeliveredIffAllTaken(key: Key, weights: Bytes, size: nat, arrivals: seq<Arrival>)
    requires size > 0 && weights != [] && |weights| <= MAX_INCOMING_MESSAGE_SIZE
    requires ChunkCount(|weights|, size) <= MAX_CHUNKS_PER_TRANSFER
    requires forall k :: 0 <= k < |arrivals| ==>
                           arrivals[k].index < ChunkCount(|weights|, size) && arrivals[k].env.deserializes
    ensures Progress(Feed(key, weights, size, arrivals), weights, size, Taken(arrivals), Seen(arrivals))
  {
    hide Concat, Chunk, ChunkCount, Indices, Receive, Progress, Admits;
    if arrivals == [] {
      NothingArrived(weights, size);
    } else {
      var n := |arrivals| - 1;
      var front := arrivals[..n];
      DeliveredIffAllTaken(key, weights, size, front);
      ReceiveProgress(Feed(key, weights, size, front), arrivals[n], key, weights, size, Taken(front), Seen(front));
    }
  }

  lemma NothingArrived(weights: Bytes, size: nat)
    requires size > 0 && weights != []
    ensures Progress(EMPTY, weights, size, {}, {})
  {
    ChunksReachTheEnd(|weights|, size);
    assert 0 in Indices(0, ChunkCount(|weights|, size));
  }

  lemma {:induction false} WelcomeIsTaken(arrivals: seq<Arrival>)
    requires forall k :: 0 <= k < |arrivals| ==> arrivals[k].room && Welcome(arrivals[k].env)
    ensures Taken(arrivals) == Seen(arrivals)
  {
    if arrivals != [] { WelcomeIsTaken(arrivals[..|arrivals| - 1]); }
  }

  /** Where nothing objects, the model is delivered once exactly when every index has arrived. */
  lemma DeliveredIffAllArrived(key: Key, weights: Bytes, size: nat, arrivals: seq<Arrival>)
    requires size > 0 && weights != [] && |weights| <= MAX_INCOMING_MESSAGE_SIZE
    requires ChunkCount(|weights|, size) <= MAX_CHUNKS_PER_TRANSFER
    requires forall k :: 0 <= k < |arrivals| ==>
                           && arrivals[k].index < ChunkCount(|weights|, size)
                           && arrivals[k].room && Welcome(arrivals[k].env)
    ensures Feed(key, weights, size, arrivals).delivered
         == if Seen(arrivals) == Indices(0, ChunkCount(|weights|, size)) then [weights] else []
  {
    hide Feed, Seen, Taken, InboxOk, ChunkCount, Indices;
    WelcomeIsTaken(arrivals);
    DeliveredIffAllTaken(key, weights, size, arrivals);
  }

  /** A chunk seen but not taken is never taken, whatever arrives later. */
  lemma {:induction false} RefusedStaysRefused(arrivals: seq<Arrival>, more: seq<Arrival>, index: nat)
    requires index in Seen(arrivals) && index !in Taken(arrivals)
    ensures index in Seen(arrivals + more) && index !in Taken(arrivals + more)
    decreases |more|
  {
    var all := arrivals + more;
    if more == [] {
      assert all == arrivals;
    } else {
      RefusedStaysRefused(arrivals, more[..|more| - 1], index);
      assert all[..|all| - 1] == arrivals + more[..|more| - 1];
    }
  }

  /** So a chunk first refused for want of room is not taken when it comes again and is welcome. */
  lemma RefusedThenWelcome(index: nat, refused: Env, welcome: Env)
    requires Welcome(refused) && Welcome(welcome)
    ensures Taken([Arrival(index, false, refused), Arrival(index, true, welcome)]) == {}
  {
    var a, b := Arrival(index, false, refused), Arrival(index, true, welcome);
    assert [a, b][..1] == [a] && [a][..0] == [];
    assert Taken([a]) == {} && Seen([a]) == {index};
  }

  // ---- Acknowledgements --------------------------------------------------------------------

  /** The indices in the buffer. */
  function Buffered(i: Inbox): set<nat> { if i.buffer.Some? then i.buffer.value.chunks.Keys else {} }

  /** New chunks stored since the last acknowledgement, and when that was or the buffer was opened. */
  datatype AckBook = AckBook(waiting: nat, last: real)

  function BookOf(i: Inbox, now: real): AckBook {
    if i.buffer.Some? then AckBook(i.buffer.value.sinceAck, i.buffer.value.lastAckAt) else AckBook(0, now)
  }

  /**
   * The rule for a chunk that is stored: it is acknowledged with all that is then stored if it
   * completes the transfer, is the sixteenth new one since the last acknowledgement, or comes a
   * quarter of a second after it.
   */
  function StoredReply(got: set<nat>, index: nat, book: AckBook, total: nat, now: real): Option<AckReply> {
    if got + {index} == Indices(0, total) || Counted(got, index, book).waiting >= 16 || now - book.last >= 0.25
    then Some(AckReply(total, got + {index})) else None
  }

  /** A chunk that was not stored before counts. */
  function Counted(got: set<nat>, index: nat, book: AckBook): AckBook {
    if index in got then book else book.(waiting := book.waiting + 1)
  }

  /** The book after a chunk got the reply. */
  function Booked(got: set<nat>, index: nat, book: AckBook, reply: Option<AckReply>, now: real): AckBook {
    if reply.Some? then AckBook(0, now) else Counted(got, index, book)
  }

  lemma StoreReplies(i: Inbox, env: Env, key: Key, weights: Bytes, size: nat, index: nat)
    requires size > 0 && InboxOk(i, weights, size) && i.completedAt.None? && index < ChunkCount(|weights|, size)
    ensures var total := ChunkCount(|weights|, size);
            var r := Store(i, env, HonestChunk(key, weights, size, index));
            && r.1 == StoredReply(Buffered(i), index, BookOf(i, env.now), total, env.now)
            && (Buffered(i) + {index} != Indices(0, total) ==>
                && r.0.buffer.Some? && Buffered(r.0) == Buffered(i) + {index} && r.0.completedAt.None?
                && BookOf(r.0, env.now) == Booked(Buffered(i), index, BookOf(i, env.now), r.1, env.now))
  {
    hide Chunk, ChunkCount, Indices, InboxOk, Complete, Store, BufferOk, IsFull, StoredReply;
    var msg := HonestChunk(key, weights, size, index);
    AddedIsSound(i, env, key, weights, size, index);
    StoreUnfolds(i, env, msg, ChunkCount(|weights|, size));
    TotalOf(Added(Opened(i, env, msg), msg), weights, size, i.accepted + {index});
  }

  lemma TotalOf(b: Buffer, weights: Bytes, size: nat, accepted: set<nat>)
    requires size > 0 && BufferOk(b, weights, size, accepted)
    ensures b.total == ChunkCount(|weights|, size)
  {
  }

  lemma StoreUnfolds(i: Inbox, env: Env, msg: ChunkMsg, total: nat)
    ensures var r := Store(i, env, msg);
            var b := Added(Opened(i, env, msg), msg);
            var stored := Buffered(i) + {msg.index};
            && b.chunks.Keys == stored
            && (b.total == total && (IsFull(b) <==> stored == Indices(0, total)) ==>
                r.1 == StoredReply(Buffered(i), msg.index, BookOf(i, env.now), total, env.now))
            && (!IsFull(b) ==>
                && r.0.buffer.Some? && Buffered(r.0) == stored && r.0.completedAt == i.completedAt
                && BookOf(r.0, env.now) == Booked(Buffered(i), msg.index, BookOf(i, env.now), r.1, env.now))
  {
    hide Complete, Indices;
  }

  /**
   * What the receiver answers to any chunk of an honest transfer: everything, once the transfer is
   * completed; what is stored, to a repeated chunk that is among it; what the rule says, to a chunk
   * that is stored; and nothing to any other.
   */
  lemma ReceiveReplies(i: Inbox, room: bool, env: Env, key: Key, weights: Bytes, size: nat, index: nat)
    requires size > 0 && InboxOk(i, weights, size) && index < ChunkCount(|weights|, size)
    ensures var total, got := ChunkCount(|weights|, size), Buffered(i);
            var reply := Receive(i, room, env, HonestChunk(key, weights, size, index)).1;
            var leave := i.buffer.Some? || (room && env.withinBytes);
            var admitted := total <= MAX_CHUNKS_PER_TRANSFER && env.roundOk && leave;
            reply ==
              if !env.authentic then None
              else if i.completedAt.Some? then Some(AckReply(total, Indices(0, total)))
              else if index in i.recent then if index in got then Some(AckReply(total, got)) else None
              else if !admitted then None
              else StoredReply(got, index, BookOf(i, env.now), total, env.now)
  {
    hide Chunk, ChunkCount, Indices, Store, StoredReply;
    if i.completedAt.None? {
      var marked := i.(recent := i.recent[index := env.now]);
      SameInboxOk(i, weights, size, index, env.now);
      StoreReplies(marked, env, key, weights, size, index);
    }
  }

  /** The reply that the last of the arrivals should get, given what was taken and seen before. */
  function ExpectedReply(a: Arrival, got: set<nat>, seen: set<nat>, total: nat, book: AckBook): Option<AckReply> {
    if !a.env.authentic then None
    else if got == Indices(0, total) then Some(AckReply(total, got))
    else if a.index in seen then if a.index in got then Some(AckReply(total, got)) else None
    else if !Admits(a, got) then None
    else StoredReply(got, a.index, if got == {} then AckBook(0, a.env.now) else book, total, a.env.now)
  }

  /** New chunks taken since the last expected reply, and when that was or the first was taken. */
  function Book(arrivals: seq<Arrival>, total: nat): AckBook {
    if arrivals == [] then AckBook(0, 0.0)
    else
      var front, a := arrivals[..|arrivals| - 1], arrivals[|arrivals| - 1];
      var book := Book(front, total);
      var reply := ExpectedReply(a, Taken(front), Seen(front), total, book);
      if reply.Some? then AckBook(0, a.env.now)
      else if Taken(arrivals) == Taken(front) then book
      else if Taken(front) == {} then AckBook(1, a.env.now)
      else AckBook(book.waiting + 1, book.last)
  }

  /** The books agree while some but not all chunks are taken. */
  ghost predicate BooksAgree(i: Inbox, got: set<nat>, total: nat, book: AckBook) {
    got != {} && got != Indices(0, total) ==> i.buffer.Some? && BookOf(i, 0.0) == book
  }

  lemma ArrivalReplies(i: Inbox, a: Arrival, key: Key, weights: Bytes, size: nat, got: set<nat>, seen: set<nat>,
                       book: AckBook)
    requires size > 0 && a.index < ChunkCount(|weights|, size) <= MAX_CHUNKS_PER_TRANSFER
    requires Progress(i, weights, size, got, seen) && BooksAgree(i, got, ChunkCount(|weights|, size), book)
    ensures var total := ChunkCount(|weights|, size);
            var r := Receive(i, a.room, a.env, HonestChunk(key, weights, size, a.index));
            && r.1 == ExpectedReply(a, got, seen, total, book)
            && var taken := a.env.authentic && a.index !in seen && Admits(a, got);
               BooksAgree(r.0, if taken then got + {a.index} else got, total,
                          if r.1.Some? then AckBook(0, a.env.now)
                          else if !taken then book
                          else if got == {} then AckBook(1, a.env.now)
                          else AckBook(book.waiting + 1, book.last))
  {
    hide Chunk, ChunkCount, Indices, Store, StoredReply, InboxOk;
    ReceiveReplies(i, a.room, a.env, key, weights, size, a.index);
    if a.env.authentic && i.completedAt.None? && a.index !in seen && Admits(a, got) {
      var marked := i.(recent := i.recent[a.index := a.env.now]);
      SameInboxOk(i, weights, size, a.index, a.env.now);
      StoreReplies(marked, a.env, key, weights, size, a.index);
    }
  }

  /** Over any arrivals of an honest transfer, the receiver gives exactly the expected replies. */
  lemma {:induction false} RepliesAreExpected(key: Key, weights: Bytes, size: nat, arrivals: seq<Arrival>)
    requires size > 0 && weights != [] && |weights| <= MAX_INCOMING_MESSAGE_SIZE
    requires ChunkCount(|weights|, size) <= MAX_CHUNKS_PER_TRANSFER
    requires forall k :: 0 <= k < |arrivals| ==>
                           arrivals[k].index < ChunkCount(|weights|, size) && arrivals[k].env.deserializes
    ensures var total := ChunkCount(|weights|, size);
            && BooksAgree(Feed(key, weights, size, arrivals), Taken(arrivals), total, Book(arrivals, total))
            && (arrivals != [] ==>
                var front, a := arrivals[..|arrivals| - 1], arrivals[|arrivals| - 1];
                Receive(Feed(key, weights, size, front), a.room, a.env, HonestChunk(key, weights, size, a.index)).1
                == ExpectedReply(a, Taken(front), Seen(front), total, Book(front, total)))
  {
    hide Chunk, ChunkCount, Indices, Receive, Progress, Admits, ExpectedReply, BooksAgree;
    if arrivals == [] {
      NoBooks(ChunkCount(|weights|, size));
    } else {
      var front, a := arrivals[..|arrivals| - 1], arrivals[|arrivals| - 1];
      var total := ChunkCount(|weights|, size);
      RepliesAreExpected(key, weights, size, front);
      DeliveredIffAllTaken(key, weights, size, front);
      SeenContainsTaken(front);
      var before := Feed(key, weights, size, front);
      ArrivalReplies(before, a, key, weights, size, Taken(front), Seen(front), Book(front, total));
    }
  }

  lemma NoBooks(total: nat)
    ensures BooksAgree(EMPTY, {}, total, AckBook(0, 0.0))
  {
  }

  lemma {:induction false} SeenContainsTaken(arrivals: seq<Arrival>)
    ensures Taken(arrivals) <= Seen(arrivals)
  {
    if arrivals != [] { SeenContainsTaken(arrivals[..|arrivals| - 1]); }
  }

  // ---- Housekeeping --------------------------------------------------------------------

  /** _cleanup_stale_transfers on this key, buffer, completed entry and duplicate filter in turn. */
  function ExpireBuffer(i: Inbox, now: real): Inbox {
    if i.buffer.Some? && now - i.buffer.value.createdAt > BUFFER_TIMEOUT then i.(buffer := None, expired := true) else i
  }

  function PurgeCompleted(i: Inbox, now: real): Inbox {
    if i.completedAt.Some? && now - i.completedAt.value > COMPLETED_TRANSFER_TTL
    then i.(completedAt := None, purges := i.purges + 1)
    else i
  }

  function PurgeRecent(i: Inbox, index: nat, now: real): Inbox {
    if index in i.recent && now - i.recent[index] > RECENT_CHUNK_TTL then i.(recent := i.recent - {index}) else i
  }

  // ---- The receiver's dictionaries ---------------------------------------------------------

  /** The per-peer and the global transfer count allow one more buffer. */
  predicate HasRoom(open: set<Key>, peer: string) {
    |set k | k in open && k.peer == peer| < MAX_CONCURRENT_TRANSFERS_PER_PEER && |open| < MAX_TOTAL_TRANSFERS
  }

  ghost function RecentOf(recent: map<(Key, nat), real>, k: Key): map<nat, real> {
    map i | i in (set p | p in recent && p.0 == k :: p.1) :: recent[(k, i)]
  }

  class Receiver {
    var chunkBuffers: map<Key, Buffer>
    var recentChunks: map<(Key, nat), real>
    var completedTransfers: map<Key, real>
    /** Carries the history fields of each key's inbox. */
    ghost var past: map<Key, Inbox>

    /** What the dictionaries hold for one key. */
    ghost function InboxOf(k: Key): Inbox
      reads this
    {
      var h := if k in past then past[k] else EMPTY;
      h.(buffer := if k in chunkBuffers then Some(chunkBuffers[k]) else None,
         recent := RecentOf(recentChunks, k),
         completedAt := if k in completedTransfers then Some(completedTransfers[k]) else None)
    }

    constructor ()
      ensures forall k :: InboxOf(k) == EMPTY
    {
      chunkBuffers, recentChunks, completedTransfers, past := map[], map[], map[], map[];
    }

    /** The buffer of msg.key after adding the chunk, and the acknowledgement that is due. */
    method AddChunk(msg: ChunkMsg, now: real) returns (full: bool, ack: Option<AckReply>)
      modifies this`chunkBuffers
      ensures msg.key in chunkBuffers && chunkBuffers == old(chunkBuffers)[msg.key := chunkBuffers[msg.key]]
      ensures var base := if msg.key in old(chunkBuffers) then old(chunkBuffers)[msg.key]
          else Buffer(msg.total, map[], now, now, 0);
              var b := Added(base, msg);
              && full == IsFull(b)
              && chunkBuffers[msg.key] == (if AckDue(b, now) then b.(lastAckAt := now, sinceAck := 0) else b)
              && ack == if AckDue(b, now) then Some(AckReply(b.total, b.chunks.Keys)) else None
    {
      if msg.key !in chunkBuffers {
        chunkBuffers := chunkBuffers[msg.key := Buffer(msg.total, map[], now, now, 0)];
      }
      var b := chunkBuffers[msg.key];
      if msg.index !in b.chunks { b := b.(sinceAck := b.sinceAck + 1); }
      b := b.(chunks := b.chunks[msg.index := msg.data]);
      full, ack := |b.chunks| == b.total, None;
      if full || b.sinceAck >= CHUNK_ACK_EVERY || now - b.lastAckAt >= CHUNK_ACK_INTERVAL {
        ack := Some(AckReply(b.total, b.chunks.Keys));
        b := b.(lastAckAt := now, sinceAck := 0);
      }
      chunkBuffers := chunkBuffers[msg.key := b];
    }

    /** Reassembles a full buffer, drops it, and registers and delivers the model if it passes. */
    method FinishTransfer(k: Key, env: Env)
      requires k in chunkBuffers
      modifies this`chunkBuffers, this`completedTransfers, this`past
      ensures forall j :: j != k ==> InboxOf(j) == old(InboxOf(j))
      ensures InboxOf(k) == Complete(old(InboxOf(k)), old(chunkBuffers[k]), env)
    {
      hide Concat, RecentOf;
      ghost var target := Complete(InboxOf(k), chunkBuffers[k], env);
      var b := chunkBuffers[k];
      chunkBuffers := chunkBuffers - {k};
      if HasAll(b.chunks, b.total) {
        var bytes := Concat(InOrder(b.chunks, b.total));
        if |bytes| <= MAX_INCOMING_MESSAGE_SIZE && env.deserializes {
          completedTransfers := completedTransfers[k := env.now];
        }
      }
      past := past[k := target];
    }

    /** Answers a chunk that the duplicate filter knows. */
    method AnswerDuplicate(msg: ChunkMsg, now: real) returns (ack: Option<AckReply>)
      requires msg.key !in completedTransfers && (msg.key, msg.index) in recentChunks
      modifies this`chunkBuffers
      ensures forall k :: k != msg.key ==> InboxOf(k) == old(InboxOf(k))
      ensures (InboxOf(msg.key), ack) == Repeated(old(InboxOf(msg.key)), msg, now)
    {
      hide RecentOf;
      var k := msg.key;
      if k !in chunkBuffers || msg.index !in chunkBuffers[k].chunks { return None; }
      var b := chunkBuffers[k];
      chunkBuffers := chunkBuffers[k := b.(lastAckAt := now, sinceAck := 0)];
      return Some(AckReply(b.total, b.chunks.Keys));
    }

    method MarkRecent(k: Key, index: nat, now: real)
      modifies this`recentChunks
      ensures forall j :: j != k ==> InboxOf(j) == old(InboxOf(j))
      ensures InboxOf(k) == old(InboxOf(k)).(recent := old(InboxOf(k)).recent[index := now])
    {
      hide RecentOf;
      RecentUpdate(recentChunks, k, index, now);
      recentChunks := recentChunks[(k, index) := now];
    }

    /** Stores an admitted chunk, and finishes the transfer if that fills its buffer. */
    method StoreChunk(msg: ChunkMsg, env: Env) returns (ack: Option<AckReply>)
      modifies this`chunkBuffers, this`completedTransfers, this`past
      ensures forall k :: k != msg.key ==> InboxOf(k) == old(InboxOf(k))
      ensures (InboxOf(msg.key), ack) == Store(old(InboxOf(msg.key)), env, msg)
    {
      hide Complete, AckDue, Added, IsFull, RecentOf;
      ghost var before := InboxOf(msg.key);
      var full;
      full, ack := AddChunk(msg, env.now);
      past := past[msg.key := before.(accepted := before.accepted + {msg.index})];
      if full { FinishTransfer(msg.key, env); }
    }

    method OnModelChunk(msg: ChunkMsg, env: Env) returns (ack: Option<AckReply>)
      modifies this
      ensures forall k :: k != msg.key ==> InboxOf(k) == old(InboxOf(k))
      ensures (InboxOf(msg.key), ack)
           == Receive(old(InboxOf(msg.key)), HasRoom(old(chunkBuffers.Keys), msg.key.peer), env, msg)
    {
      hide Store, Repeated, Indices, HasRoom, RecentOf;
      var k := msg.key;
      RecentMember(recentChunks, k, msg.index);
      if !env.authentic { return None; }
      if k in completedTransfers { return Some(AckReply(msg.total, Indices(0, msg.total))); }
      if (k, msg.index) in recentChunks {
        ack := AnswerDuplicate(msg, env.now);
        return;
      }
      MarkRecent(k, msg.index, env.now);
      if msg.total > MAX_CHUNKS_PER_TRANSFER || !env.roundOk { return None; }
      if k !in chunkBuffers && !(HasRoom(chunkBuffers.Keys, k.peer) && env.withinBytes) { return None; }
      ack := StoreChunk(msg, env);
    }
  }

  lemma RecentMember(recent: map<(Key, nat), real>, k: Key, index: nat)
    ensures index in RecentOf(recent, k) <==> (k, index) in recent
  {
    if (k, index) in recent { assert (k, index).0 == k && (k, index).1 == index; }
  }

  /** Marking one chunk as recent changes only its own key's filter. */
  lemma RecentUpdate(recent: map<(Key, nat), real>, k: Key, index: nat, now: real)
    ensures var after := recent[(k, index) := now];
            && RecentOf(after, k) == RecentOf(recent, k)[index := now]
            && forall j :: j != k ==> RecentOf(after, j) == RecentOf(recent, j)
  {
    var after := recent[(k, index) := now];
    forall i: nat
      ensures i in RecentOf(after, k) <==> i in RecentOf(recent, k)[index := now]
    {
      RecentMember(after, k, i);
      RecentMember(recent, k, i);
    }
    assert RecentOf(after, k) == RecentOf(recent, k)[index := now];
    forall j: Key | j != k
      ensures RecentOf(after, j) == RecentOf(recent, j)
    {
      OtherRecent(recent, after, k, index, j);
    }
  }

  lemma OtherRecent(recent: map<(Key, nat), real>, after: map<(Key, nat), real>, k: Key, index: nat, j: Key)
    requires (k, index) in after && j != k && after == recent[(k, index) := after[(k, index)]]
    ensures RecentOf(after, j) == RecentOf(recent, j)
  {
    forall i: nat
      ensures i in RecentOf(after, j) <==> i in RecentOf(recent, j)
    {
      RecentMember(after, j, i);
      RecentMember(recent, j, i);
    }
  }
}
