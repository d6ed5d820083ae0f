/**
 * SACK ranges: the received chunk indices as inclusive uint32 start/end pairs in network
 * byte order, and back.
 */
module ChunkRanges {
  import opened Wrappers
  import opened Numerics

  datatype Range = Range(start: nat, end: nat)

  datatype RangeError = LengthNotMultipleOf8 | EndBeforeStart | OutOfBounds | NotUint32

  // ---- Sorted indices -------------------------------------------------------

  lemma {:induction false} HasLargest(S: set<nat>)
    requires S != {}
    ensures exists m :: m in S && forall x :: x in S ==> x <= m
  {
    var y :| y in S;
    if S != {y} {
      HasLargest(S - {y});
      var m :| m in S - {y} && forall x :: x in S - {y} ==> x <= m;
      assert forall x :: x in S ==> x == y || x in S - {y};
      assert if y <= m then forall x :: x in S ==> x <= m else forall x :: x in S ==> x <= y;
    }
  }

  /** sorted(set(indices)) */
  function Sorted(S: set<nat>): (s: seq<nat>)
    ensures Increasing(s) && forall x :: x in s <==> x in S
  {
    if S == {} then []
    else
      HasLargest(S);
      var m :| m in S && forall x :: x in S ==> x <= m;
      Sorted(S - {m}) + [m]
  }

  // ---- Contiguous ranges ------------------------------------------------------

  function Indices(lo: nat, hi: nat): (s: set<nat>)
    ensures forall x :: x in s <==> lo <= x < hi
    decreases hi - lo
  {
    if lo >= hi then {} else {lo} + Indices(lo + 1, hi)
  }

  ghost function Span(r: Range): (s: set<nat>)
    ensures forall x :: x in s <==> r.start <= x <= r.end
  {
    Indices(r.start, r.end + 1)
  }

  ghost function Covered(rs: seq<Range>): set<nat> {
    if rs == [] then {} else Covered(rs[..|rs| - 1]) + Span(rs[|rs| - 1])
  }

  /** Every range is non-empty and a gap of at least one index separates it from the next. */
  ghost predicate Canonical(rs: seq<Range>) {
    && (forall i :: 0 <= i < |rs| ==> rs[i].start <= rs[i].end)
    && (forall i, j :: 0 <= i < j < |rs| ==> rs[i].end + 1 < rs[j].start)
  }

  /** The maximal runs of consecutive indices in an increasing list. */
  function RangesOf(s: seq<nat>): seq<Range> {
    if s == [] then []
    else
      var rest, x := RangesOf(s[..|s| - 1]), s[|s| - 1];
      if rest != [] && rest[|rest| - 1].end + 1 == x
      then rest[..|rest| - 1] + [Range(rest[|rest| - 1].start, x)]
      else rest + [Range(x, x)]
  }

  /** The loop of _chunk_index_ranges: start and prev delimit the run being read. */
  method ChunkIndexRanges(indices: set<nat>) returns (ranges: seq<Range>)
    ensures ranges == RangesOf(Sorted(indices))
  {
    var sorted := Sorted(indices);
    if sorted == [] { return []; }
    ranges := [];
    var start, prev := sorted[0], sorted[0];
    assert sorted[..1] == [sorted[0]];
    for k := 1 to |sorted|
      invariant RangesOf(sorted[..k]) == ranges + [Range(start, prev)]
    {
      var index := sorted[k];
      assert sorted[..k + 1][..k] == sorted[..k];
      if index == prev + 1 {
        prev := index;
      } else {
        ranges := ranges + [Range(start, prev)];
        start, prev := index, index;
      }
    }
    assert sorted[..|sorted|] == sorted;
    ranges := ranges + [Range(start, prev)];
  }

  lemma CoveredSnoc(rs: seq<Range>, r: Range)
    ensures Covered(rs + [r]) == Covered(rs) + Span(r)
  {
    assert (rs + [r])[..|rs|] == rs;
  }

  /** rs are canonical runs that cover exactly s and end at its last entry. */
  ghost predicate Describes(rs: seq<Range>, s: seq<nat>) {
    && Canonical(rs) && Covered(rs) == Elements(s)
    && (s == [] <==> rs == [])
    && (s != [] ==> rs[|rs| - 1].end == s[|s| - 1])
  }

  /** The next index either extends the last run by one or starts a run of its own. */
  lemma ExtendRun(front: seq<Range>, last: Range, w: seq<nat>, x: nat)
    requires Describes(front + [last], w) && w[|w| - 1] < x && last.end + 1 == x
    ensures Describes(front + [Range(last.start, x)], w + [x])
  {
    var longer := Range(last.start, x);
    var rs := front + [last];
    var rs' := front + [longer];
    assert rs[|front|] == last;
    CoveredSnoc(front, last);
    CoveredSnoc(front, longer);
    assert Span(longer) == Span(last) + {x};
    assert Elements(w + [x]) == Elements(w) + {x};
    assert forall i :: 0 <= i < |front| ==> rs'[i] == rs[i];
  }

  lemma StartRun(rs: seq<Range>, w: seq<nat>, x: nat)
    requires Describes(rs, w) && (w != [] ==> w[|w| - 1] + 1 < x)
    ensures Describes(rs + [Range(x, x)], w + [x])
  {
    CoveredSnoc(rs, Range(x, x));
    assert Span(Range(x, x)) == {x};
    assert Elements(w + [x]) == Elements(w) + {x};
    forall i | 0 <= i < |rs|
      ensures rs[i].end + 1 < x
    {
      assert rs[i].end <= rs[|rs| - 1].end;
    }
  }

  lemma {:induction false} RangesDescribe(s: seq<nat>)
    requires Increasing(s)
    ensures Describes(RangesOf(s), s)
  {
    if s != [] {
      var w, x := s[..|s| - 1], s[|s| - 1];
      RangesDescribe(w);
      var rs := RangesOf(w);
      assert s == w + [x];
      if rs != [] && rs[|rs| - 1].end + 1 == x {
        assert rs == rs[..|rs| - 1] + [rs[|rs| - 1]];
        ExtendRun(rs[..|rs| - 1], rs[|rs| - 1], w, x);
      } else {
        StartRun(rs, w, x);
      }
    }
  }

  /** The runs of a set are canonical and cover exactly that set. */
  lemma RangesCover(S: set<nat>)
    ensures Canonical(RangesOf(Sorted(S))) && Covered(RangesOf(Sorted(S))) == S
  {
    hide Sorted, RangesOf, Covered;
    RangesDescribe(Sorted(S));
    assert Elements(Sorted(S)) == S;
  }

  lemma {:induction false} CoveredMember(rs: seq<Range>, x: nat)
    ensures x in Covered(rs) <==> exists i :: 0 <= i < |rs| && rs[i].start <= x <= rs[i].end
  {
    if rs != [] {
      CoveredMember(rs[..|rs| - 1], x);
      assert x in Span(rs[|rs| - 1]) <==> rs[|rs| - 1].start <= x <= rs[|rs| - 1].end;
      if i :| 0 <= i < |rs| && rs[i].start <= x <= rs[i].end {
        assert i < |rs| - 1 ==> rs[..|rs| - 1][i] == rs[i];
      }
    }
  }

  /** The index just past a canonical range is not covered. */
  lemma GapAfter(rs: seq<Range>, i: nat)
    requires Canonical(rs) && i < |rs|
    ensures rs[i].end + 1 !in Covered(rs)
  {
    CoveredMember(rs, rs[i].end + 1);
  }

  /** Any other list of intervals covers range i with some interval of its own. */
  lemma CoverOf(rs: seq<Range>, other: seq<Range>, i: nat) returns (c: nat)
    requires Canonical(rs) && Covered(other) == Covered(rs) && i < |rs|
    ensures c < |other| && other[c].start <= rs[i].start <= other[c].end < rs[i].end + 1
  {
    CoveredMember(rs, rs[i].start);
    CoveredMember(other, rs[i].start);
    c :| 0 <= c < |other| && other[c].start <= rs[i].start <= other[c].end;
    GapAfter(rs, i);
    CoveredMember(other, rs[i].end + 1);
  }

  /** Injections into the covering list, one range at a time. */
  lemma {:induction false} Covers(rs: seq<Range>, other: seq<Range>, k: nat) returns (picks: seq<nat>)
    requires Canonical(rs) && Covered(other) == Covered(rs) && k <= |rs|
    ensures |picks| == k && Distinct(picks)
    ensures forall i :: 0 <= i < k ==>
                          && picks[i] < |other|
                          && other[picks[i]].start <= rs[i].start <= other[picks[i]].end <= rs[i].end
  {
    if k == 0 {
      picks := [];
    } else {
      picks := Covers(rs, other, k - 1);
      var c := CoverOf(rs, other, k - 1);
      assert forall i :: 0 <= i < k - 1 ==> rs[i].end + 1 < rs[k - 1].start;
      picks := picks + [c];
    }
  }

  /** No list of intervals covering exactly the same indices is shorter. */
  lemma RangesAreFewest(S: set<nat>, other: seq<Range>)
    requires Covered(other) == S
    ensures |RangesOf(Sorted(S))| <= |other|
  {
    hide Sorted, RangesOf, Covered;
    var rs := RangesOf(Sorted(S));
    RangesCover(S);
    var picks := Covers(rs, other, |rs|);
    DistinctCardinality(picks);
    FitsBelow(Elements(picks), |other|);
  }

  // ---- Wire format --------------------------------------------------------------

  const UINT32: nat := 0x1_0000_0000

  function EncodeUint32(n: nat): (bs: seq<byte>)
    requires n < UINT32
    ensures |bs| == 4
  {
    [(n / 0x100_0000) as byte, (n / 0x1_0000 % 0x100) as byte, (n / 0x100 % 0x100) as byte, (n % 0x100) as byte]
  }

  function DecodeUint32(bs: seq<byte>): (n: nat)
    requires |bs| == 4
    ensures n < UINT32
  {
    bs[0] as int * 0x100_0000 + bs[1] as int * 0x1_0000 + bs[2] as int * 0x100 + bs[3] as int
  }

  lemma Uint32RoundTrip(n: nat)
    requires n < UINT32
    ensures DecodeUint32(EncodeUint32(n)) == n
  {
    var a, b, c := n / 0x100, n / 0x1_0000, n / 0x100_0000;
    assert a == 0x100 * b + a % 0x100 && b == 0x100 * c + b % 0x100;
  }

  function EncodeRange(r: Range): (bs: seq<byte>)
    requires r.start < UINT32 && r.end < UINT32
    ensures |bs| == 8
  {
    EncodeUint32(r.start) + EncodeUint32(r.end)
  }

  ghost predicate AllUint32(rs: seq<Range>) {
    forall i :: 0 <= i < |rs| ==> rs[i].start < UINT32 && rs[i].end < UINT32
  }

  function EncodeRanges(rs: seq<Range>): (bs: seq<byte>)
    requires AllUint32(rs)
    ensures |bs| == 8 * |rs|
  {
    if rs == [] then [] else EncodeRanges(rs[..|rs| - 1]) + EncodeRange(rs[|rs| - 1])
  }

  /** Packing fails only where struct.pack does: on an index beyond 32 bits. */
  method PackChunkRanges(indices: set<nat>) returns (r: Result<seq<byte>, RangeError>)
    ensures r.Ok? <==> forall x :: x in indices ==> x < UINT32
    ensures r.Ok? ==> AllUint32(RangesOf(Sorted(indices))) && r.value == EncodeRanges(RangesOf(Sorted(indices)))
  {
    hide Sorted, RangesOf, Covered;
    var ranges := ChunkIndexRanges(indices);
    RangesCover(indices);
    EndpointsListed(ranges, indices);
    var data: seq<byte> := [];
    for i := 0 to |ranges|
      invariant AllUint32(ranges[..i]) && data == EncodeRanges(ranges[..i])
    {
      if ranges[i].start >= UINT32 || ranges[i].end >= UINT32 { return Err(NotUint32); }
      data := data + EncodeRange(ranges[i]);
      assert ranges[..i + 1][..i] == ranges[..i];
    }
    assert ranges[..|ranges|] == ranges;
    return Ok(data);
  }

  /** Both ends of every range are indices, and every index is at most some end. */
  lemma EndpointsListed(rs: seq<Range>, indices: set<nat>)
    requires Canonical(rs) && Covered(rs) == indices
    ensures forall i :: 0 <= i < |rs| ==> rs[i].start in indices && rs[i].end in indices
    ensures (forall x :: x in indices ==> x < UINT32) <==> AllUint32(rs)
  {
    hide Covered;
    forall i | 0 <= i < |rs|
      ensures rs[i].start in indices && rs[i].end in indices
    {
      CoveredMember(rs, rs[i].start);
      CoveredMember(rs, rs[i].end);
    }
    forall x | x in indices && AllUint32(rs)
      ensures x < UINT32
    {
      CoveredMember(rs, x);
    }
  }

  // ---- Unpacking ------------------------------------------------------------------

  function RangeAt(data: seq<byte>, k: nat): (r: Range)
    requires 8 * k + 8 <= |data|
  {
    Range(DecodeUint32(data[8 * k..8 * k + 4]), DecodeUint32(data[8 * k + 4..8 * k + 8]))
  }

  function RangesIn(data: seq<byte>): (rs: seq<Range>)
    ensures |rs| == |data| / 8 && forall k :: 0 <= k < |rs| ==> rs[k] == RangeAt(data, k)
  {
    seq(|data| / 8, k requires 0 <= k < |data| / 8 => RangeAt(data, k))
  }

  predicate Acceptable(r: Range, total: Option<nat>) {
    r.start <= r.end && (total.Some? ==> r.end < total.value)
  }

  /** Whole pairs only, each in order and in bounds. */
  ghost predicate WellFormed(data: seq<byte>, total: Option<nat>) {
    |data| % 8 == 0 && forall k :: 0 <= k < |RangesIn(data)| ==> Acceptable(RangesIn(data)[k], total)
  }

  /** Accepts exactly the well-formed payloads and returns the indices they cover. */
  method UnpackChunkRanges(data: seq<byte>, total: Option<nat>) returns (r: Result<set<nat>, RangeError>)
    ensures r.Ok? <==> WellFormed(data, total)
    ensures r.Ok? ==> r.value == Covered(RangesIn(data))
    ensures |data| % 8 != 0 ==> r == Err(LengthNotMultipleOf8)
  {
    hide RangeAt;
    if |data| % 8 != 0 { return Err(LengthNotMultipleOf8); }
    ghost var rs := RangesIn(data);
    var indices: set<nat> := {};
    for k := 0 to |data| / 8
      invariant indices == Covered(rs[..k])
      invariant forall i :: 0 <= i < k ==> Acceptable(rs[i], total)
    {
      var range := RangeAt(data, k);
      assert rs[k] == range;
      if range.end < range.start { return Err(EndBeforeStart); }
      if total.Some? && range.end >= total.value { return Err(OutOfBounds); }
      indices := indices + Indices(range.start, range.end + 1);
      assert rs[..k + 1][..k] == rs[..k];
    }
    assert rs[..|rs|] == rs;
    return Ok(indices);
  }

  // ---- Round trip -------------------------------------------------------------------

  lemma EncodedRangeReads(r: Range, data: seq<byte>, k: nat)
    requires r.start < UINT32 && r.end < UINT32 && 8 * k + 8 <= |data| && data[8 * k..8 * k + 8] == EncodeRange(r)
    ensures RangeAt(data, k) == r
  {
    var e := EncodeRange(r);
    assert data[8 * k..8 * k + 4] == e[..4] && data[8 * k + 4..8 * k + 8] == e[4..];
    Uint32RoundTrip(r.start);
    Uint32RoundTrip(r.end);
  }

  lemma {:induction false} EncodedRangesRead(rs: seq<Range>)
    requires AllUint32(rs)
    ensures RangesIn(EncodeRanges(rs)) == rs
  {
    if rs != [] {
      var n := |rs| - 1;
      hide RangeAt, EncodeRange;
      EncodedRangesRead(rs[..n]);
      var front, data := EncodeRanges(rs[..n]), EncodeRanges(rs);
      assert data[8 * n..8 * n + 8] == EncodeRange(rs[n]);
      EncodedRangeReads(rs[n], data, n);
      forall k | 0 <= k < n
        ensures RangesIn(data)[k] == rs[k]
      {
        PrefixReads(front, data, k);
        assert RangesIn(front)[k] == rs[..n][k];
      }
    }
  }

  lemma PrefixReads(front: seq<byte>, data: seq<byte>, k: nat)
    requires front <= data && 8 * k + 8 <= |front|
    ensures RangeAt(data, k) == RangeAt(front, k)
  {
    assert data[8 * k..8 * k + 4] == front[8 * k..8 * k + 4];
    assert data[8 * k + 4..8 * k + 8] == front[8 * k + 4..8 * k + 8];
  }

  /** The indices as bytes, where they fit 32 bits. */
  function Packed(indices: set<nat>): (data: seq<byte>)
    requires forall x :: x in indices ==> x < UINT32
  {
    RangesCover(indices);
    EndpointsListed(RangesOf(Sorted(indices)), indices);
    EncodeRanges(RangesOf(Sorted(indices)))
  }

  /**
   * Unpacking what was packed for any set within [0, total) is accepted and gives back that
   * set, with or without the bound.
   */
  lemma SackRoundTrip(indices: set<nat>, total: nat)
    requires total <= UINT32 && forall x :: x in indices ==> x < total
    ensures WellFormed(Packed(indices), Some(total)) && WellFormed(Packed(indices), None)
    ensures Covered(RangesIn(Packed(indices))) == indices
  {
    hide Sorted, RangesOf, Covered, EncodeRanges;
    RangesCover(indices);
    EndpointsListed(RangesOf(Sorted(indices)), indices);
    EncodedRangesRead(RangesOf(Sorted(indices)));
  }

  /** What an accepted payload covers never leaves [0, total), whoever packed it. */
  lemma UnpackedStaysInBounds(data: seq<byte>, total: nat)
    requires WellFormed(data, Some(total))
    ensures forall x :: x in Covered(RangesIn(data)) ==> x < total
  {
    hide Covered;
    forall x | x in Covered(RangesIn(data))
      ensures x < total
    {
      CoveredMember(RangesIn(data), x);
    }
  }
}
