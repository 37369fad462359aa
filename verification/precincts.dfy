/**
 * The precinct store: the seed transform applied to the raw precinct file,
 * the seed validity test, and the searches over the stored precincts.
 */
module Precincts {
  import opened Wrappers
  import opened Text
  import opened Geometry
  import opened Records

  /**
   * One raw record of the precinct file. `precinctNum`, `latitude` and
   * `longitude` are what `Number(...)` gives (`None` when not finite);
   * an absent or empty text field is `""`.
   */
  datatype RawPrecinct = RawPrecinct(
    precinctNum: Option<int>,
    name: string,
    address: string,
    phone: string,
    borough: string,
    latitude: Option<real>,
    longitude: Option<real>,
    openingHours: seq<DayHours>)

  /** An entry of the precinct location file; a missing coordinate is `None`. */
  datatype StationLocation = StationLocation(num: int, lat: Option<real>, lng: Option<real>)

  /** The boundary file, keyed by precinct number; a missing key means no boundary. */
  type Boundaries = map<int, seq<LatLng>>

  /** `precinctLocations.find(p => p.num === num)`. */
  function LocationOf(locations: seq<StationLocation>, num: int): (r: Option<StationLocation>)
    ensures r.Some? ==> r.value in locations && r.value.num == num
    ensures r.None? <==> forall k :: 0 <= k < |locations| ==> locations[k].num != num
  {
    if |locations| == 0 then None
    else if locations[0].num == num then Some(locations[0])
    else
      var r := LocationOf(locations[1..], num);
      assert forall k :: 1 <= k < |locations| ==> locations[k] == locations[1..][k - 1];
      r
  }

  function BoundaryOf(boundaries: Boundaries, num: int): seq<LatLng> {
    if num in boundaries then boundaries[num] else []
  }

  /**
   * One axis of the centroid: the location-file value when present, else
   * the finite station coordinate, else the centre of the boundary's
   * extent on that axis, else 0.
   */
  function CentroidAxis(location: Option<real>, station: Option<real>, boxCentre: Option<real>): real {
    if location.Some? then location.value
    else if station.Some? then station.value
    else if boxCentre.Some? then boxCentre.value
    else 0.0
  }

  /** The record the transform builds for a valid number, given the boundary's extent. */
  function BuildRecord(data: RawPrecinct, num: int, boundary: seq<LatLng>, location: Option<StationLocation>,
                       extent: Option<BoundingBox>): Precinct
  {
    var centroidLat := CentroidAxis(
      if location.Some? then location.value.lat else None,
      data.latitude,
      if extent.Some? then Some((extent.value.minLat + extent.value.maxLat) / 2.0) else None);
    var centroidLng := CentroidAxis(
      if location.Some? then location.value.lng else None,
      data.longitude,
      if extent.Some? then Some((extent.value.minLng + extent.value.maxLng) / 2.0) else None);
    Precinct(
      num,
      if data.name == "" then IntToString(num) + "th Precinct" else data.name,
      data.address,
      data.phone,
      data.borough,
      data.latitude,
      data.longitude,
      boundary,
      centroidLat,
      centroidLng,
      if extent.Some? then extent.value else BoundingBox(centroidLat, centroidLat, centroidLng, centroidLng),
      data.openingHours)
  }

  /** The seeded record of a raw record, or `None` when its number is not finite and positive. */
  function PrecinctRecord(data: RawPrecinct, boundaries: Boundaries, locations: seq<StationLocation>): Option<Precinct> {
    if data.precinctNum.None? || data.precinctNum.value <= 0 then None
    else
      var num := data.precinctNum.value;
      var boundary := BoundaryOf(boundaries, num);
      Some(BuildRecord(data, num, boundary, LocationOf(locations, num), Extent(boundary)))
  }

  /**
   * The transform of one raw record inside `initializeDatabase`, with the
   * bounding box computed by the min/max loop over the boundary.
   */
  method TransformPrecinct(data: RawPrecinct, boundaries: Boundaries, locations: seq<StationLocation>)
    returns (record: Option<Precinct>)
    ensures record == PrecinctRecord(data, boundaries, locations)
    ensures record.Some? <==> data.precinctNum.Some? && data.precinctNum.value > 0
    ensures record.Some? ==> Some(record.value.precinctNum) == data.precinctNum
  {
    if data.precinctNum.None? || data.precinctNum.value <= 0 {
      return None;
    }
    var num := data.precinctNum.value;
    var boundary := BoundaryOf(boundaries, num);
    var extent := ComputeExtent(boundary);
    record := Some(BuildRecord(data, num, boundary, LocationOf(locations, num), extent));
  }

  /**
   * The bounding box of a seeded precinct is ordered and contains every
   * boundary vertex; with no boundary it collapses to the centroid. The
   * station coordinates are the finite raw ones, and an unnamed precinct
   * is called "<n>th Precinct".
   */
  lemma PrecinctRecordBox(data: RawPrecinct, boundaries: Boundaries, locations: seq<StationLocation>)
    requires PrecinctRecord(data, boundaries, locations).Some?
    ensures var p := PrecinctRecord(data, boundaries, locations).value;
      && p.precinctNum > 0
      && Ordered(p.boundingBox)
      && Encloses(p.boundingBox, p.boundary)
      && p.boundary == BoundaryOf(boundaries, p.precinctNum)
      && (|p.boundary| == 0 ==> p.boundingBox == BoundingBox(p.centroidLat, p.centroidLat, p.centroidLng, p.centroidLng))
      && p.stationLat == data.latitude && p.stationLng == data.longitude
      && p.name == (if data.name == "" then IntToString(p.precinctNum) + "th Precinct" else data.name)
  {
    ExtentIsTight(BoundaryOf(boundaries, data.precinctNum.value));
  }

  /**
   * The centroid of a seeded precinct. Each axis independently takes the
   * location-file value, else the finite station coordinate, else the
   * centre of the boundary's extent (which lies inside the bounding box),
   * else 0.
   */
  lemma PrecinctRecordCentroid(data: RawPrecinct, boundaries: Boundaries, locations: seq<StationLocation>)
    requires PrecinctRecord(data, boundaries, locations).Some?
    ensures var p := PrecinctRecord(data, boundaries, locations).value;
      var loc := LocationOf(locations, p.precinctNum);
      && (loc.Some? && loc.value.lat.Some? ==> p.centroidLat == loc.value.lat.value)
      && (loc.Some? && loc.value.lng.Some? ==> p.centroidLng == loc.value.lng.value)
      && ((loc.None? || loc.value.lat.None?) && data.latitude.Some? ==> p.centroidLat == data.latitude.value)
      && ((loc.None? || loc.value.lng.None?) && data.longitude.Some? ==> p.centroidLng == data.longitude.value)
      && ((loc.None? || loc.value.lat.None?) && data.latitude.None? && |p.boundary| > 0 ==>
            && p.centroidLat == (p.boundingBox.minLat + p.boundingBox.maxLat) / 2.0
            && p.boundingBox.minLat <= p.centroidLat <= p.boundingBox.maxLat)
      && ((loc.None? || loc.value.lng.None?) && data.longitude.None? && |p.boundary| > 0 ==>
            && p.centroidLng == (p.boundingBox.minLng + p.boundingBox.maxLng) / 2.0
            && p.boundingBox.minLng <= p.centroidLng <= p.boundingBox.maxLng)
      && ((loc.None? || loc.value.lat.None?) && data.latitude.None? && |p.boundary| == 0 ==> p.centroidLat == 0.0)
      && ((loc.None? || loc.value.lng.None?) && data.longitude.None? && |p.boundary| == 0 ==> p.centroidLng == 0.0)
  {
    ExtentIsTight(BoundaryOf(boundaries, data.precinctNum.value));
  }

  /** The seeded list: the transform of every raw record, invalid ones dropped, in file order. */
  function SeededPrecincts(raws: seq<RawPrecinct>, boundaries: Boundaries, locations: seq<StationLocation>): seq<Precinct> {
    if |raws| == 0 then []
    else
      var init := SeededPrecincts(raws[..|raws| - 1], boundaries, locations);
      match PrecinctRecord(raws[|raws| - 1], boundaries, locations)
      case Some(p) => init + [p]
      case None => init
  }

  /** Every seeded precinct has a positive number and is the transform of some raw record. */
  lemma {:induction false} SeededPrecinctsValid(raws: seq<RawPrecinct>, boundaries: Boundaries, locations: seq<StationLocation>)
    ensures |SeededPrecincts(raws, boundaries, locations)| <= |raws|
    ensures forall k :: 0 <= k < |SeededPrecincts(raws, boundaries, locations)| ==>
      SeededPrecincts(raws, boundaries, locations)[k].precinctNum > 0
      && exists i :: 0 <= i < |raws| && PrecinctRecord(raws[i], boundaries, locations) == Some(SeededPrecincts(raws, boundaries, locations)[k])
  {
    if |raws| > 0 {
      var init := raws[..|raws| - 1];
      SeededPrecinctsValid(init, boundaries, locations);
      var s := SeededPrecincts(raws, boundaries, locations);
      var n := |SeededPrecincts(init, boundaries, locations)|;
      forall k | 0 <= k < |s|
        ensures s[k].precinctNum > 0
          && exists i :: 0 <= i < |raws| && PrecinctRecord(raws[i], boundaries, locations) == Some(s[k])
      {
        if k < n {
          assert s[k] == SeededPrecincts(init, boundaries, locations)[k];
          var i :| 0 <= i < |init| && PrecinctRecord(init[i], boundaries, locations) == Some(s[k]);
          assert raws[i] == init[i];
        } else {
          assert PrecinctRecord(raws[|raws| - 1], boundaries, locations) == Some(s[k]);
        }
      }
    }
  }

  /** The `map`/`filter` over the raw records in `initializeDatabase`. */
  method SeedPrecincts(raws: seq<RawPrecinct>, boundaries: Boundaries, locations: seq<StationLocation>)
    returns (seeded: seq<Precinct>)
    ensures seeded == SeededPrecincts(raws, boundaries, locations)
    ensures forall k :: 0 <= k < |seeded| ==> seeded[k].precinctNum > 0
  {
    seeded := [];
    for i := 0 to |raws|
      invariant seeded == SeededPrecincts(raws[..i], boundaries, locations)
    {
      assert raws[..i + 1][..i] == raws[..i];
      var record := TransformPrecinct(raws[i], boundaries, locations);
      if record.Some? {
        seeded := seeded + [record.value];
      }
    }
    assert raws[..|raws|] == raws;
    SeededPrecinctsValid(raws, boundaries, locations);
  }

  /** A raw record with a finite positive number is never dropped. */
  lemma {:induction false} ValidRecordSeeded(raws: seq<RawPrecinct>, boundaries: Boundaries, locations: seq<StationLocation>, i: nat)
    requires i < |raws| && raws[i].precinctNum.Some? && raws[i].precinctNum.value > 0
    ensures PrecinctRecord(raws[i], boundaries, locations).value in SeededPrecincts(raws, boundaries, locations)
  {
    if i < |raws| - 1 {
      ValidRecordSeeded(raws[..|raws| - 1], boundaries, locations, i);
    }
  }

  /** `db.precincts.orderBy('precinctNum').first()`. */
  function LowestNumbered(precincts: seq<Precinct>): (r: Option<Precinct>)
    ensures r.None? <==> |precincts| == 0
    ensures r.Some? ==> r.value in precincts
    ensures r.Some? ==> forall k :: 0 <= k < |precincts| ==> r.value.precinctNum <= precincts[k].precinctNum
  {
    if |precincts| == 0 then None
    else
      var rest := LowestNumbered(precincts[1..]);
      assert forall k :: 1 <= k < |precincts| ==> precincts[k] == precincts[1..][k - 1];
      if rest.None? || precincts[0].precinctNum <= rest.value.precinctNum then Some(precincts[0]) else rest
  }

  /**
   * `hasValidSeed`: the lowest-numbered stored precinct has a positive
   * number and finite station coordinates (stored centroids are always
   * finite here).
   */
  predicate HasValidSeed(precincts: seq<Precinct>) {
    var sample := LowestNumbered(precincts);
    sample.Some? && sample.value.precinctNum > 0
    && sample.value.stationLat.Some? && sample.value.stationLng.Some?
  }

  /**
   * A seed whose lowest-numbered precinct has no station coordinates is
   * judged invalid, even though the transform wrote it: every start then
   * clears and reseeds.
   */
  lemma MissingStationInvalidatesSeed(precincts: seq<Precinct>)
    requires |precincts| > 0
    requires forall k :: 0 <= k < |precincts| ==> precincts[0].precinctNum < precincts[k].precinctNum || k == 0
    requires precincts[0].stationLat.None?
    ensures !HasValidSeed(precincts)
  {
    var sample := LowestNumbered(precincts);
    assert sample.value.precinctNum <= precincts[0].precinctNum;
    assert sample.value == precincts[0];
  }

  /** `findPrecinctAtLocation`: the first precinct in store order whose boundary contains the point. */
  function PrecinctAtLocation(precincts: seq<Precinct>, p: LatLng): (r: Option<Precinct>)
    ensures r.Some? ==> r.value in precincts && Contains(p, r.value.boundary)
    ensures r.None? <==> forall k :: 0 <= k < |precincts| ==> !Contains(p, precincts[k].boundary)
  {
    if |precincts| == 0 then None
    else if Contains(p, precincts[0].boundary) then Some(precincts[0])
    else
      var r := PrecinctAtLocation(precincts[1..], p);
      assert forall k :: 1 <= k < |precincts| ==> precincts[k] == precincts[1..][k - 1];
      r
  }

  /** The precinct found is the first match: no earlier precinct contains the point. */
  lemma {:induction false} PrecinctAtLocationIsFirst(precincts: seq<Precinct>, p: LatLng)
    requires PrecinctAtLocation(precincts, p).Some?
    ensures exists i :: 0 <= i < |precincts| && precincts[i] == PrecinctAtLocation(precincts, p).value
                        && forall j :: 0 <= j < i ==> !Contains(p, precincts[j].boundary)
  {
    if !Contains(p, precincts[0].boundary) {
      PrecinctAtLocationIsFirst(precincts[1..], p);
      var i :| 0 <= i < |precincts[1..]| && precincts[1..][i] == PrecinctAtLocation(precincts[1..], p).value
        && forall j :: 0 <= j < i ==> !Contains(p, precincts[1..][j].boundary);
      assert precincts[i + 1] == precincts[1..][i];
      forall j | 0 <= j < i + 1 ensures !Contains(p, precincts[j].boundary) {
        if j > 0 { assert precincts[j] == precincts[1..][j - 1]; }
      }
    } else {
      assert precincts[0] == PrecinctAtLocation(precincts, p).value;
    }
  }

  method FindPrecinctAtLocation(precincts: seq<Precinct>, point: LatLng) returns (found: Option<Precinct>)
    ensures found == PrecinctAtLocation(precincts, point)
  {
    for i := 0 to |precincts|
      invariant PrecinctAtLocation(precincts, point) == PrecinctAtLocation(precincts[i..], point)
    {
      assert precincts[i..][1..] == precincts[i + 1..];
      var inside := IsPointInPolygon(point, precincts[i].boundary);
      if inside {
        return Some(precincts[i]);
      }
    }
    assert precincts[|precincts|..] == [];
    return None;
  }

  /** The haversine distance in kilometres between two points. */
  type Distance = (LatLng, LatLng) -> real

  /**
   * The index the nearest-centroid scan holds after the first `k`
   * precincts: a later precinct replaces it only when strictly nearer.
   */
  function NearestIndex(precincts: seq<Precinct>, p: LatLng, dist: Distance, k: nat): (r: Option<nat>)
    requires k <= |precincts|
    ensures r.Some? ==> r.value < k
    ensures r.None? <==> k == 0
  {
    if k == 0 then None
    else
      var prev := NearestIndex(precincts, p, dist, k - 1);
      if prev.None? || dist(p, precincts[k - 1].Centroid()) < dist(p, precincts[prev.value].Centroid())
      then Some(k - 1)
      else prev
  }

  /**
   * The nearest-centroid scan is an argmin: its distance is at most every
   * other precinct's, and every earlier precinct is strictly farther, so
   * ties go to the earliest.
   */
  lemma {:induction false} NearestIsFirstArgmin(precincts: seq<Precinct>, p: LatLng, dist: Distance, k: nat)
    requires 0 < k <= |precincts|
    ensures var i := NearestIndex(precincts, p, dist, k).value;
      && (forall j :: 0 <= j < k ==> dist(p, precincts[i].Centroid()) <= dist(p, precincts[j].Centroid()))
      && (forall j :: 0 <= j < i ==> dist(p, precincts[i].Centroid()) < dist(p, precincts[j].Centroid()))
  {
    if k > 1 {
      NearestIsFirstArgmin(precincts, p, dist, k - 1);
    }
  }

  /** `findNearestPrecinct`: `null` on an empty store, else the strictly-first nearest centroid. */
  method FindNearestPrecinct(precincts: seq<Precinct>, point: LatLng, dist: Distance) returns (nearest: Option<Precinct>)
    ensures nearest.None? <==> |precincts| == 0
    ensures nearest.Some? ==> nearest.value == precincts[IndexOfNearest(precincts, point, dist)]
  {
    nearest := None;
    var minDistance: Option<real> := None;
    ghost var index: Option<nat> := None;
    for i := 0 to |precincts|
      invariant index == NearestIndex(precincts, point, dist, i)
      invariant index.None? <==> nearest.None?
      invariant index.None? <==> minDistance.None?
      invariant index.Some? ==> nearest.value == precincts[index.value]
      invariant index.Some? ==> minDistance.value == dist(point, precincts[index.value].Centroid())
    {
      var distance := dist(point, precincts[i].Centroid());
      if minDistance.None? || distance < minDistance.value {
        minDistance := Some(distance);
        nearest := Some(precincts[i]);
        index := Some(i);
      }
    }
  }

  function IndexOfNearest(precincts: seq<Precinct>, p: LatLng, dist: Distance): nat
    requires |precincts| > 0
  {
    NearestIndex(precincts, p, dist, |precincts|).value
  }

  /** `getPrecinctByNumber`: the stored precinct with that number, if any. */
  function PrecinctByNumber(precincts: seq<Precinct>, num: int): (r: Option<Precinct>)
    ensures r.Some? ==> r.value in precincts && r.value.precinctNum == num
    ensures r.None? <==> forall k :: 0 <= k < |precincts| ==> precincts[k].precinctNum != num
  {
    if |precincts| == 0 then None
    else if precincts[0].precinctNum == num then Some(precincts[0])
    else
      var r := PrecinctByNumber(precincts[1..], num);
      assert forall k :: 1 <= k < |precincts| ==> precincts[k] == precincts[1..][k - 1];
      r
  }
}
