/** Model updates and the checks every aggregation strategy runs first. */
module Aggregation {
  import opened Wrappers
  import opened Numerics
  import opened Vectors

  datatype ModelUpdate = ModelUpdate(peerId: string, weights: Vec, sampleCount: int, loss: Option<real>, round: int)

  datatype AggregatedModel = AggregatedModel(weights: Vec, contributingPeers: seq<string>, totalSamples: int)

  datatype AggregationError =
    | EmptyUpdates
    | DuplicatePeer(peerId: string)
    | IncompatibleShapes(peerId: string)
    | TooFewUpdates(got: nat, required: nat)

  type AggregationResult = Result<AggregatedModel, AggregationError>

  function PeerIds(updates: seq<ModelUpdate>): (ids: seq<string>)
    ensures |ids| == |updates| && forall i :: 0 <= i < |ids| ==> ids[i] == updates[i].peerId
  {
    seq(|updates|, i requires 0 <= i < |updates| => updates[i].peerId)
  }

  function WeightsOf(updates: seq<ModelUpdate>): (ws: seq<Vec>)
    ensures |ws| == |updates| && forall i :: 0 <= i < |ws| ==> ws[i] == updates[i].weights
  {
    seq(|updates|, i requires 0 <= i < |updates| => updates[i].weights)
  }

  ghost predicate SameShape(ws: seq<Vec>) {
    forall i :: 0 <= i < |ws| ==> |ws[i]| == |ws[0]|
  }

  ghost predicate Admissible(updates: seq<ModelUpdate>) {
    updates != [] && Distinct(PeerIds(updates)) && SameShape(WeightsOf(updates))
  }

  function TotalSamples(updates: seq<ModelUpdate>): int {
    if updates == [] then 0 else TotalSamples(updates[..|updates| - 1]) + updates[|updates| - 1].sampleCount
  }

  /** Empty lists, repeated peers and differing shapes are refused, in that order. */
  method Validate<S(==)>(ids: seq<string>, shapes: seq<S>) returns (r: Option<AggregationError>)
    requires |ids| == |shapes|
    ensures r.None? <==> ids != [] && Distinct(ids) && forall i :: 0 <= i < |shapes| ==> shapes[i] == shapes[0]
    ensures r == Some(EmptyUpdates) <==> ids == []
    ensures r.Some? && r.value.DuplicatePeer? <==> !Distinct(ids)
    ensures r.Some? && r.value.DuplicatePeer? ==>
              exists i :: 0 <= i < |ids| && ids[i] == r.value.peerId && ids[i] in ids[..i] && Distinct(ids[..i])
    ensures r.Some? && r.value.IncompatibleShapes? ==>
              exists i :: 0 <= i < |ids| && ids[i] == r.value.peerId && shapes[i] != shapes[0]
                          && forall j :: 0 <= j < i ==> shapes[j] == shapes[0]
    ensures r.Some? ==> !r.value.TooFewUpdates?
  {
    if ids == [] { return Some(EmptyUpdates); }
    var seen := {};
    for i := 0 to |ids|
      invariant seen == set j | 0 <= j < i :: ids[j]
      invariant forall j, k :: 0 <= j < k < i ==> ids[j] != ids[k]
    {
      if ids[i] in seen {
        var j :| 0 <= j < i && ids[j] == ids[i];
        assert ids[..i][j] == ids[i];
        return Some(DuplicatePeer(ids[i]));
      }
      seen := seen + {ids[i]};
    }
    for i := 1 to |shapes|
      invariant forall j :: 0 <= j < i ==> shapes[j] == shapes[0]
    {
      if shapes[i] != shapes[0] { return Some(IncompatibleShapes(ids[i])); }
    }
    return None;
  }

  method ValidateUpdates(updates: seq<ModelUpdate>) returns (r: Option<AggregationError>)
    ensures r.None? <==> Admissible(updates)
    ensures r == Some(EmptyUpdates) <==> updates == []
    ensures r.Some? && r.value.DuplicatePeer? <==> !Distinct(PeerIds(updates))
    ensures r.Some? ==> !r.value.TooFewUpdates?
  {
    var lengths := seq(|updates|, i requires 0 <= i < |updates| => |updates[i].weights|);
    r := Validate(PeerIds(updates), lengths);
    assert forall i :: 0 <= i < |updates| ==> lengths[i] == |WeightsOf(updates)[i]|;
  }
}
