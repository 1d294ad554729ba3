/** Request validation of package dto: zone-id lists, points
    (internal/dto/geometries.go) and single and batch containment queries
    (internal/dto/zone.go). */
module Dto {
  import opened Wrappers

  /** The sentinel errors of package dto. */
  datatype DtoError = EmptyIds | InvalidId | DuplicateKey | EmptyData | InvalidLatitude | InvalidLongitude

  /** `Error()`: each text names exactly one sentinel. */
  function Message(e: DtoError): (text: string)
    ensures text == "ids cannot be empty" <==> e == EmptyIds
    ensures text == "invalid id" <==> e == InvalidId
    ensures text == "duplicate key" <==> e == DuplicateKey
    ensures text == "empty data" <==> e == EmptyData
    ensures text == "invalid latitude" <==> e == InvalidLatitude
    ensures text == "invalid longitude" <==> e == InvalidLongitude
  {
    match e
    case EmptyIds => "ids cannot be empty"
    case InvalidId => "invalid id"
    case DuplicateKey => "duplicate key"
    case EmptyData => "empty data"
    case InvalidLatitude => "invalid latitude"
    case InvalidLongitude => "invalid longitude"
  }

  /** The sentinels' texts are pairwise distinct. */
  lemma MessageInjective(e1: DtoError, e2: DtoError)
    requires Message(e1) == Message(e2)
    ensures e1 == e2
  {
  }

  // ---------------------------------------------------------------------
  // Points (geometries.go). Coordinates are IEEE doubles in the source and
  // reals here.

  datatype Point = Point(lon: real, lat: real)

  /** `Point.Validate`: latitude first, then longitude; both ranges are closed. */
  function ValidatePoint(p: Point): (r: Option<DtoError>)
    ensures r == None <==> -90.0 <= p.lat <= 90.0 && -180.0 <= p.lon <= 180.0
    ensures r == Some(InvalidLatitude) <==> !(-90.0 <= p.lat <= 90.0)
    ensures r == Some(InvalidLongitude) <==> -90.0 <= p.lat <= 90.0 && !(-180.0 <= p.lon <= 180.0)
  {
    if p.lat < -90.0 || p.lat > 90.0 then Some(InvalidLatitude)
    else if p.lon < -180.0 || p.lon > 180.0 then Some(InvalidLongitude)
    else None
  }

  /** The handler tests' points: latitude 91 is rejected; latitude 90 is on
      the boundary and passes, so longitude -181 with it gives the longitude
      error; with both out of range the latitude error wins. */
  lemma PointExamples()
    ensures ValidatePoint(Point(0.0, 91.0)) == Some(InvalidLatitude)
    ensures ValidatePoint(Point(-181.0, 90.0)) == Some(InvalidLongitude)
    ensures ValidatePoint(Point(181.0, -91.0)) == Some(InvalidLatitude)
    ensures ValidatePoint(Point(180.0, 90.0)) == None
  {
  }

  // ---------------------------------------------------------------------
  // Zone ids and queries (zone.go).

  /** Every id is positive; the empty list qualifies. */
  predicate ValidIds(ids: seq<int>) {
    forall i :: 0 <= i < |ids| ==> ids[i] >= 1
  }

  /** `ZoneIds.Validate`: a scan that stops at the first id below 1. */
  method ValidateZoneIds(ids: seq<int>) returns (err: Option<DtoError>)
    ensures err == None <==> ValidIds(ids)
    ensures err != None ==> err == Some(InvalidId)
  {
    var i := 0;
    while i < |ids|
      invariant 0 <= i <= |ids|
      invariant forall j :: 0 <= j < i ==> ids[j] >= 1
    {
      if ids[i] < 1 {
        return Some(InvalidId);
      }
      i := i + 1;
    }
    return None;
  }

  datatype ZoneContainsPointIn = ZoneContainsPointIn(zoneIds: seq<int>, point: Point)

  /** `ZoneContainsPointIn.Validate`: the ids are checked before the point. */
  method ValidateContainsQuery(q: ZoneContainsPointIn) returns (err: Option<DtoError>)
    ensures !ValidIds(q.zoneIds) ==> err == Some(InvalidId)
    ensures ValidIds(q.zoneIds) ==> err == ValidatePoint(q.point)
  {
    err := ValidateZoneIds(q.zoneIds);
    if err == None {
      err := ValidatePoint(q.point);
    }
  }

  datatype BatchZoneContainsPointIn = BatchZoneContainsPointIn(key: string, zoneIds: seq<int>, point: Point)

  /** Some earlier entry of the batch carries the same key as entry `i`. */
  predicate KeySeenBefore(b: seq<BatchZoneContainsPointIn>, i: int)
    requires 0 <= i < |b|
  {
    exists j :: 0 <= j < i && b[j].key == b[i].key
  }

  predicate KeysDistinct(b: seq<BatchZoneContainsPointIn>) {
    forall i, j :: 0 <= i < j < |b| ==> b[i].key != b[j].key
  }

  /** What entry `i` is rejected for, if anything: its key is checked before its ids. */
  function EntryError(b: seq<BatchZoneContainsPointIn>, i: int): Option<DtoError>
    requires 0 <= i < |b|
  {
    if KeySeenBefore(b, i) then Some(DuplicateKey)
    else if !ValidIds(b[i].zoneIds) then Some(InvalidId)
    else None
  }

  /** The error of the first rejected entry at or after `k`. */
  function ScanFrom(b: seq<BatchZoneContainsPointIn>, k: int): (r: Option<DtoError>)
    requires 0 <= k <= |b|
    ensures r != None ==> r == Some(DuplicateKey) || r == Some(InvalidId)
    decreases |b| - k
  {
    if k == |b| then None
    else if EntryError(b, k).Some? then EntryError(b, k)
    else ScanFrom(b, k + 1)
  }

  /** The outcome `BatchZoneContainsPointInCollection.Validate` computes. */
  function BatchOutcome(b: seq<BatchZoneContainsPointIn>): (r: Option<DtoError>)
    ensures r == Some(EmptyData) <==> |b| == 0
    ensures r != None ==> r == Some(EmptyData) || r == Some(DuplicateKey) || r == Some(InvalidId)
  {
    if |b| == 0 then Some(EmptyData) else ScanFrom(b, 0)
  }

  /** `BatchZoneContainsPointInCollection.Validate`: one pass over the batch
      that records every key in `cacheKeys` and stops at the first entry
      whose key was recorded before or whose ids are invalid. */
  method ValidateBatch(b: seq<BatchZoneContainsPointIn>) returns (err: Option<DtoError>)
    ensures err == BatchOutcome(b)
  {
    if |b| == 0 {
      return Some(EmptyData);
    }
    var cacheKeys: map<string, ()> := map[];
    var i := 0;
    while i < |b|
      invariant 0 <= i <= |b|
      invariant cacheKeys.Keys == set j | 0 <= j < i :: b[j].key
      invariant ScanFrom(b, 0) == ScanFrom(b, i)
    {
      var v := b[i];
      if v.key in cacheKeys {
        return Some(DuplicateKey);
      } else {
        cacheKeys := cacheKeys[v.key := ()];
      }
      var idsErr := ValidateZoneIds(v.zoneIds);
      if idsErr != None {
        return idsErr;
      }
      i := i + 1;
    }
    return None;
  }

  predicate FirstOffender(b: seq<BatchZoneContainsPointIn>, i: int) {
    && 0 <= i < |b|
    && EntryError(b, i).Some?
    && forall j :: 0 <= j < i ==> EntryError(b, j) == None
  }

  lemma {:induction false} ScanFromFinds(b: seq<BatchZoneContainsPointIn>, k: int)
    requires 0 <= k <= |b|
    ensures ScanFrom(b, k) == None <==> forall i :: k <= i < |b| ==> EntryError(b, i) == None
    ensures forall i :: k <= i < |b| && FirstOffender(b, i) ==> ScanFrom(b, k) == EntryError(b, i)
    decreases |b| - k
  {
    if k < |b| {
      ScanFromFinds(b, k + 1);
    }
  }

  /** A batch passes exactly when it is non-empty, its keys are pairwise
      distinct and every entry's ids are positive. */
  lemma BatchValid(b: seq<BatchZoneContainsPointIn>)
    ensures BatchOutcome(b) == None <==>
            |b| > 0 && KeysDistinct(b) && forall i :: 0 <= i < |b| ==> ValidIds(b[i].zoneIds)
  {
    ScanFromFinds(b, 0);
    if BatchOutcome(b) == None {
      forall i, j | 0 <= i < j < |b| ensures b[i].key != b[j].key {
        assert EntryError(b, j) == None;
      }
      forall i | 0 <= i < |b| ensures ValidIds(b[i].zoneIds) {
        assert EntryError(b, i) == None;
      }
    }
  }

  /** First offender wins: the error is the one of the earliest rejected entry. */
  lemma FirstOffenderWins(b: seq<BatchZoneContainsPointIn>, i: int)
    requires FirstOffender(b, i)
    ensures BatchOutcome(b) == EntryError(b, i)
    ensures KeySeenBefore(b, i) ==> BatchOutcome(b) == Some(DuplicateKey)
    ensures !KeySeenBefore(b, i) ==> BatchOutcome(b) == Some(InvalidId)
  {
    ScanFromFinds(b, 0);
  }

  /** The batch rules never look at the points. */
  lemma {:induction false} PointsIgnoredFrom(b1: seq<BatchZoneContainsPointIn>, b2: seq<BatchZoneContainsPointIn>, k: int)
    requires |b1| == |b2| && 0 <= k <= |b1|
    requires forall i :: 0 <= i < |b1| ==> b1[i].key == b2[i].key && b1[i].zoneIds == b2[i].zoneIds
    ensures ScanFrom(b1, k) == ScanFrom(b2, k)
    decreases |b1| - k
  {
    if k < |b1| {
      assert KeySeenBefore(b1, k) == KeySeenBefore(b2, k) by {
        if KeySeenBefore(b1, k) {
          var j :| 0 <= j < k && b1[j].key == b1[k].key;
          assert b2[j].key == b2[k].key;
        }
        if KeySeenBefore(b2, k) {
          var j :| 0 <= j < k && b2[j].key == b2[k].key;
          assert b1[j].key == b1[k].key;
        }
      }
      PointsIgnoredFrom(b1, b2, k + 1);
    }
  }

  lemma PointsIgnored(b1: seq<BatchZoneContainsPointIn>, b2: seq<BatchZoneContainsPointIn>)
    requires |b1| == |b2|
    requires forall i :: 0 <= i < |b1| ==> b1[i].key == b2[i].key && b1[i].zoneIds == b2[i].zoneIds
    ensures BatchOutcome(b1) == BatchOutcome(b2)
  {
    if |b1| > 0 {
      PointsIgnoredFrom(b1, b2, 0);
    }
  }
  /** Two entries keyed "a": rejected for the duplicate key although both
      entries' ids are valid. */
  lemma DuplicateKeyExample(p: Point)
    ensures BatchOutcome([BatchZoneContainsPointIn("a", [1], p), BatchZoneContainsPointIn("a", [2], p)])
            == Some(DuplicateKey)
  {
    var b := [BatchZoneContainsPointIn("a", [1], p), BatchZoneContainsPointIn("a", [2], p)];
    assert !KeySeenBefore(b, 0);
    assert KeySeenBefore(b, 1) by { assert b[0].key == b[1].key; }
    assert ValidIds(b[0].zoneIds);
    assert EntryError(b, 0) == None;
    assert ScanFrom(b, 1) == Some(DuplicateKey);
  }
}
