/**
 * Manifest exchange: cutting canonical bytes into chunks and collecting them again under one
 * request, with the digest of the assembled bytes checked against the swarm id.
 */
module ManifestExchange {
  import opened Wrappers
  import opened ChunkRanges
  import opened Chunking

  datatype ExchangeError =
    | EmptyManifest
    | BadChunkSize
    | TotalNotPositive
    | TotalDrifted
    | IndexOutOfRange
    | DifferingData
    | Incomplete
    | HashMismatch

  // ---- Cutting --------------------------------------------------------------------------

  /** The chunks are non-empty, all but the last have the full size, and joined they are the input. */
  function ChunkManifestBytes(canonical: Bytes, chunkSize: int): (r: Result<seq<Bytes>, ExchangeError>)
    ensures r == Err(EmptyManifest) <==> canonical == []
    ensures r == Err(BadChunkSize) <==> canonical != [] && chunkSize <= 0
    ensures r.Ok? ==> Concat(r.value) == canonical
    ensures r.Ok? ==> forall i :: 0 <= i < |r.value| ==> 0 < |r.value[i]| <= chunkSize
    ensures r.Ok? ==> forall i :: 0 <= i < |r.value| - 1 ==> |r.value[i]| == chunkSize
  {
    hide Concat, ChunkCount, Chunk;
    if canonical == [] then Err(EmptyManifest)
    else if chunkSize <= 0 then Err(BadChunkSize)
    else
      JoinAll(canonical, chunkSize);
      ChunkLengths(canonical, chunkSize);
      Ok(Chunks(canonical, ChunkCount(|canonical|, chunkSize), chunkSize))
  }

  lemma ChunkLengths(b: Bytes, size: nat)
    requires size > 0
    ensures forall i :: 0 <= i < ChunkCount(|b|, size) ==> 0 < |Chunk(b, i, size)| <= size
    ensures forall i :: 0 <= i < ChunkCount(|b|, size) - 1 ==> |Chunk(b, i, size)| == size
  {
    hide ChunkCount, Chunk;
    forall i: nat | i < ChunkCount(|b|, size)
      ensures 0 < |Chunk(b, i, size)| <= size && (i < ChunkCount(|b|, size) - 1 ==> |Chunk(b, i, size)| == size)
    {
      ChunkLength(b, i, size);
    }
  }

  // ---- Collecting -------------------------------------------------------------------------

  datatype Assembly = Assembly(total: Option<nat>, chunks: map<nat, Bytes>)

  const NOTHING: Assembly := Assembly(None, map[])

  datatype ChunkMessage = ChunkMessage(index: int, total: int, data: Bytes)

  /** add_chunk. A first message fixes the total even when its index is then refused. */
  function Add(a: Assembly, m: ChunkMessage): (Assembly, Option<ExchangeError>) {
    if m.total <= 0 then (a, Some(TotalNotPositive))
    else if a.total.Some? && a.total.value != m.total then (a, Some(TotalDrifted))
    else
      var fixed := a.(total := Some(m.total));
      if m.index < 0 || m.index >= m.total then (fixed, Some(IndexOutOfRange))
      else if m.index in a.chunks && a.chunks[m.index] != m.data then (fixed, Some(DifferingData))
      else (fixed.(chunks := a.chunks[m.index := m.data]), None)
  }

  predicate IsComplete(a: Assembly) { a.total.Some? && |a.chunks| == a.total.value }

  /** Stored indices are below the total. */
  ghost predicate Bounded(a: Assembly) {
    && (a.chunks != map[] ==> a.total.Some?)
    && forall k :: k in a.chunks ==> k < a.total.value
  }

  lemma AddKeepsBounded(a: Assembly, m: ChunkMessage)
    requires Bounded(a)
    ensures Bounded(Add(a, m).0)
  {
  }

  /** In a bounded assembly, complete means that every index below the total is there. */
  lemma CompleteIffAll(a: Assembly)
    requires Bounded(a)
    ensures IsComplete(a) <==> a.total.Some? && HasAll(a.chunks, a.total.value)
  {
    if a.total.Some? {
      var n := a.total.value;
      assert |a.chunks.Keys| == |a.chunks|;
      if IsComplete(a) {
        FullSubset(a.chunks.Keys, n);
        assert forall k :: 0 <= k < n ==> k in Indices(0, n);
      }
      if HasAll(a.chunks, n) {
        assert a.chunks.Keys == Indices(0, n);
        IndexCount(0, n);
      }
    }
  }

  /** assemble_and_verify, for any digest function. */
  ghost function Assemble(a: Assembly, swarmId: Bytes, digest: Bytes -> Bytes): Result<Bytes, ExchangeError>
    requires Bounded(a)
  {
    if !IsComplete(a) then Err(Incomplete)
    else
      CompleteIffAll(a);
      var bytes := Concat(InOrder(a.chunks, a.total.value));
      if digest(bytes) == swarmId then Ok(bytes) else Err(HashMismatch)
  }

  // ---- Arbitrary runs -----------------------------------------------------------------------

  /** The assembly after any messages, refused ones included. */
  ghost function After(messages: seq<ChunkMessage>): (a: Assembly)
    ensures Bounded(a)
  {
    if messages == [] then NOTHING
    else
      AddKeepsBounded(After(messages[..|messages| - 1]), messages[|messages| - 1]);
      Add(After(messages[..|messages| - 1]), messages[|messages| - 1]).0
  }

  /** Whatever else arrives, a stored chunk never changes and the total stays as first fixed. */
  lemma {:induction false} StoredStays(messages: seq<ChunkMessage>, more: seq<ChunkMessage>)
    ensures var a, b := After(messages), After(messages + more);
            && (a.total.Some? ==> b.total == a.total)
            && forall k :: k in a.chunks ==> k in b.chunks && b.chunks[k] == a.chunks[k]
    decreases |more|
  {
    if more == [] {
      assert messages + more == messages;
    } else {
      var n := |more| - 1;
      StoredStays(messages, more[..n]);
      assert (messages + more)[..|messages| + n] == messages + more[..n];
    }
  }

  // ---- Honest runs ------------------------------------------------------------------------------

  function HonestMessage(b: Bytes, size: nat, i: nat): ChunkMessage
    requires size > 0
  {
    ChunkMessage(i, ChunkCount(|b|, size), Chunk(b, i, size))
  }

  /** The chunks of b with the given indices, in that order. */
  function HonestMessages(b: Bytes, size: nat, order: seq<nat>): (ms: seq<ChunkMessage>)
    requires size > 0
    ensures |ms| == |order| && forall k :: 0 <= k < |order| ==> ms[k] == HonestMessage(b, size, order[k])
  {
    seq(|order|, k requires 0 <= k < |order| => HonestMessage(b, size, order[k]))
  }

  ghost predicate Holds(a: Assembly, b: Bytes, size: nat, order: seq<nat>)
    requires size > 0
  {
    && (order != [] ==> a.total == Some(ChunkCount(|b|, size))) && (order == [] ==> a.total == None)
    && (forall k :: k in a.chunks <==> k in order)
    && (forall k :: k in a.chunks ==> a.chunks[k] == Chunk(b, k, size))
  }

  lemma HonestAdd(a: Assembly, b: Bytes, size: nat, order: seq<nat>, i: nat)
    requires size > 0 && Holds(a, b, size, order) && i < ChunkCount(|b|, size)
    ensures Add(a, HonestMessage(b, size, i)).1 == None
    ensures Holds(Add(a, HonestMessage(b, size, i)).0, b, size, order + [i])
  {
    hide ChunkCount, Chunk;
  }

  /** Chunks in any order with any repetitions fill exactly their places. */
  lemma {:induction false} HonestRun(b: Bytes, size: nat, order: seq<nat>)
    requires size > 0 && forall k :: 0 <= k < |order| ==> order[k] < ChunkCount(|b|, size)
    ensures Holds(After(HonestMessages(b, size, order)), b, size, order)
  {
    hide ChunkCount, Chunk, Add, Holds;
    if order == [] {
      NothingHolds(b, size);
    } else {
      var n := |order| - 1;
      var front := order[..n];
      HonestRun(b, size, front);
      var all, before := HonestMessages(b, size, order), HonestMessages(b, size, front);
      assert all[..n] == before;
      HonestAdd(After(before), b, size, front, order[n]);
      assert front + [order[n]] == order;
    }
  }

  /** And none of them is ever refused. */
  lemma HonestNeverRefused(b: Bytes, size: nat, order: seq<nat>, k: nat)
    requires size > 0 && forall j :: 0 <= j < |order| ==> order[j] < ChunkCount(|b|, size)
    requires k < |order|
    ensures var ms := HonestMessages(b, size, order); Add(After(ms[..k]), ms[k]).1 == None
  {
    hide ChunkCount, Chunk, Add, Holds, After;
    var front := order[..k];
    HonestRun(b, size, front);
    HonestAdd(After(HonestMessages(b, size, front)), b, size, front, order[k]);
    assert HonestMessages(b, size, order)[..k] == HonestMessages(b, size, front);
  }

  lemma NothingHolds(b: Bytes, size: nat)
    requires size > 0
    ensures Holds(NOTHING, b, size, [])
  {
  }

  /**
   * For any non-empty bytes and positive chunk size: feeding chunks in any order with any
   * repetitions is complete exactly when every index has arrived; then the bytes come back, and
   * before that assembly reports that it is incomplete.
   */
  lemma ManifestReassembles(b: Bytes, size: nat, order: seq<nat>, digest: Bytes -> Bytes)
    requires b != [] && size > 0 && forall k :: 0 <= k < |order| ==> order[k] < ChunkCount(|b|, size)
    ensures var a := After(HonestMessages(b, size, order));
            && (IsComplete(a) <==> forall k :: 0 <= k < ChunkCount(|b|, size) ==> k in order)
            && Assemble(a, digest(b), digest) == if IsComplete(a) then Ok(b) else Err(Incomplete)
  {
    hide Concat, Chunk, After;
    var a := After(HonestMessages(b, size, order));
    var n := ChunkCount(|b|, size);
    assert n > 0 by { ChunksReachTheEnd(|b|, size); }
    hide ChunkCount;
    HonestRun(b, size, order);
    CompleteIffAll(a);
    hide IsComplete;
    if order == [] {
      assert 0 !in order;
      assert a.total.None?;
    }
    if IsComplete(a) {
      assert InOrder(a.chunks, n) == Chunks(b, n, size);
      JoinAll(b, size);
    }
  }

  // ---- The object ------------------------------------------------------------------------------------

  class ManifestAssembler {
    const swarmId: Bytes
    var total: Option<nat>
    var chunks: map<nat, Bytes>

    ghost function View(): Assembly
      reads this
    {
      Assembly(total, chunks)
    }

    ghost predicate Valid()
      reads this
    {
      Bounded(View())
    }

    constructor (swarmId: Bytes)
      ensures Valid() && this.swarmId == swarmId && View() == NOTHING
    {
      this.swarmId, total, chunks := swarmId, None, map[];
    }

    method AddChunk(index: int, total: int, data: Bytes) returns (error: Option<ExchangeError>)
      requires Valid()
      modifies this
      ensures Valid()
      ensures View() == Add(old(View()), ChunkMessage(index, total, data)).0
      ensures error == Add(old(View()), ChunkMessage(index, total, data)).1
    {
      AddKeepsBounded(View(), ChunkMessage(index, total, data));
      if total <= 0 { return Some(TotalNotPositive); }
      if this.total.None? {
        this.total := Some(total);
      } else if this.total.value != total {
        return Some(TotalDrifted);
      }
      if index < 0 || index >= total { return Some(IndexOutOfRange); }
      if index in chunks && chunks[index] != data { return Some(DifferingData); }
      chunks := chunks[index := data];
      return None;
    }

    method AssembleAndVerify(digest: Bytes -> Bytes) returns (r: Result<Bytes, ExchangeError>)
      requires Valid()
      ensures r == Assemble(View(), swarmId, digest)
      ensures r.Ok? ==> digest(r.value) == swarmId
    {
      if total.None? || |chunks| != total.value { return Err(Incomplete); }
      CompleteIffAll(View());
      ghost var parts := InOrder(chunks, total.value);
      var bytes: Bytes := [];
      for i := 0 to total.value
        invariant bytes == Concat(parts[..i])
      {
        assert parts[..i + 1][..i] == parts[..i];
        bytes := bytes + chunks[i];
      }
      assert parts[..total.value] == parts;
      r := if digest(bytes) == swarmId then Ok(bytes) else Err(HashMismatch);
    }
  }
}
