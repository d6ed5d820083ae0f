/** Cutting bytes into fixed-size chunks and putting them back together. */
module Chunking {
  import opened Wrappers
  import opened ChunkRanges

  type Bytes = seq<byte>

  /** ceil(length / size), written as the source does. */
  function ChunkCount(length: nat, size: nat): (n: nat)
    requires size > 0
  {
    (length + size - 1) / size
  }

  lemma ChunksReachTheEnd(length: nat, size: nat)
    requires size > 0
    ensures length <= ChunkCount(length, size) * size < length + size
  {
    CountBounds(length + size - 1, size);
  }

  lemma CountBounds(x: nat, size: nat)
    requires size > 0
    ensures x - size + 1 <= (x / size) * size <= x
  {
  }

  lemma Monotone(i: nat, n: nat, size: nat)
    requires i <= n
    ensures i * size <= n * size
  {
  }

  function Edge(length: nat, i: nat, size: nat): (e: nat)
    ensures e <= length
  {
    if i * size < length then i * size else length
  }

  /** bytes[i * size : (i + 1) * size], clipped at the end. */
  function Chunk(b: Bytes, i: nat, size: nat): Bytes {
    Monotone(i, i + 1, size);
    b[Edge(|b|, i, size)..Edge(|b|, i + 1, size)]
  }

  function Concat(parts: seq<Bytes>): Bytes {
    if parts == [] then [] else Concat(parts[..|parts| - 1]) + parts[|parts| - 1]
  }

  function Chunks(b: Bytes, k: nat, size: nat): (parts: seq<Bytes>)
    ensures |parts| == k && forall i :: 0 <= i < k ==> parts[i] == Chunk(b, i, size)
  {
    seq(k, i requires 0 <= i < k => Chunk(b, i, size))
  }

  lemma {:induction false} JoinPrefix(b: Bytes, k: nat, size: nat)
    ensures Concat(Chunks(b, k, size)) == b[..Edge(|b|, k, size)]
  {
    if k > 0 {
      JoinPrefix(b, k - 1, size);
      assert Chunks(b, k, size)[..k - 1] == Chunks(b, k - 1, size);
      Monotone(k - 1, k, size);
    }
  }

  /** All chunks, in order, are the original bytes. */
  lemma JoinAll(b: Bytes, size: nat)
    requires size > 0
    ensures Concat(Chunks(b, ChunkCount(|b|, size), size)) == b
  {
    hide ChunkCount, Concat, Chunks;
    JoinPrefix(b, ChunkCount(|b|, size), size);
    ChunksReachTheEnd(|b|, size);
  }

  // ---- Buffers of chunks by index ----------------------------------------------------------

  /** chunks[0], ..., chunks[total - 1], if all of them are there. */
  predicate HasAll(chunks: map<nat, Bytes>, total: nat) {
    forall k :: 0 <= k < total ==> k in chunks
  }

  function InOrder(chunks: map<nat, Bytes>, total: nat): (parts: seq<Bytes>)
    requires HasAll(chunks, total)
    ensures |parts| == total && forall k :: 0 <= k < total ==> parts[k] == chunks[k]
  {
    seq(total, k requires 0 <= k < total => chunks[k])
  }

  lemma FullSubset(S: set<nat>, n: nat)
    requires |S| == n && forall k :: k in S ==> k < n
    ensures S == Indices(0, n)
  {
    IndexCount(0, n);
    assert S <= Indices(0, n);
    assert |Indices(0, n) - S| == |Indices(0, n)| - |S|;
  }

  lemma {:induction false} IndexCount(lo: nat, hi: nat)
    requires lo <= hi
    ensures |Indices(lo, hi)| == hi - lo
    decreases hi - lo
  {
    if lo < hi { IndexCount(lo + 1, hi); }
  }

  lemma MissingIndex(S: set<nat>, n: nat) returns (j: nat)
    requires |S| != n && forall k :: k in S ==> k < n
    ensures j < n && j !in S
  {
    var missing := Indices(0, n) - S;
    assert Indices(0, n) == S + missing;
    assert missing != {} by { IndexCount(0, n); }
    j :| j in missing;
  }

  lemma ChunkLength(b: Bytes, i: nat, size: nat)
    requires size > 0 && i < ChunkCount(|b|, size)
    ensures 0 < |Chunk(b, i, size)| <= size
    ensures i + 1 < ChunkCount(|b|, size) ==> |Chunk(b, i, size)| == size
  {
    var n := ChunkCount(|b|, size);
    hide ChunkCount;
    ChunksReachTheEnd(|b|, size);
    Monotone(i + 1, n, size);
    if i + 1 < n { Monotone(i + 2, n, size); }
    Distribute(i, size);
  }

  lemma Distribute(i: nat, size: nat)
    ensures (i + 1) * size == i * size + size && (i + 2) * size == i * size + size + size
  {
  }
}
