/**
 * The patrol-sector store: sector rings loaded from GeoJSON features, and
 * the searches over them. The parsed list is a value built once and passed
 * to every query.
 */
module Sectors {
  import opened Wrappers
  import opened Lists
  import opened Text
  import opened Geometry
  import opened Coordinates
  import opened Records

  /**
   * One GeoJSON feature as read from the sector file. `pct` is what
   * `Number(properties.pct)` gives (`None` when it is not finite); `sector`
   * is `String(properties.sector || '')`.
   */
  datatype Feature = Feature(
    geometryType: Option<string>,
    coordinates: RawValue,
    pct: Option<int>,
    sector: string)

  /** A well-formed polygon value: an array whose first element is an array (its exterior ring). */
  predicate HasRing(polygon: RawValue) {
    polygon.JArray? && |polygon.items| > 0 && polygon.items[0].JArray?
  }

  function ExteriorRing(polygon: RawValue): seq<RawValue>
    requires HasRing(polygon)
  {
    polygon.items[0].items
  }

  /** The exterior ring of each well-formed MultiPolygon part, in order. */
  function PartRings(parts: seq<RawValue>): (r: seq<seq<RawValue>>)
    ensures |r| <= |parts|
    ensures forall k :: 0 <= k < |r| ==> exists i :: 0 <= i < |parts| && HasRing(parts[i]) && r[k] == ExteriorRing(parts[i])
  {
    if |parts| == 0 then []
    else
      var init := PartRings(parts[..|parts| - 1]);
      var last := parts[|parts| - 1];
      if HasRing(last) then init + [ExteriorRing(last)] else init
  }

  /** Parts are processed one at a time: the rings of a concatenation are the concatenation of the rings. */
  lemma {:induction false} PartRingsAppend(a: seq<RawValue>, b: seq<RawValue>)
    ensures PartRings(a + b) == PartRings(a) + PartRings(b)
    decreases |b|
  {
    if |b| == 0 {
      assert a + b == a;
    } else {
      var b' := b[..|b| - 1];
      assert (a + b)[..|a + b| - 1] == a + b';
      PartRingsAppend(a, b');
    }
  }

  /** A single part contributes its exterior ring exactly when it is well formed. */
  lemma PartRingsSingle(part: RawValue)
    ensures PartRings([part]) == if HasRing(part) then [ExteriorRing(part)] else []
  {
    assert [part][..0] == [];
  }

  /**
   * `getOuterRings`: only the exterior ring of a Polygon, or of each
   * MultiPolygon part; holes and any other geometry type are dropped.
   */
  function OuterRings(geometryType: Option<string>, coordinates: RawValue): (r: seq<seq<RawValue>>)
    ensures geometryType == Some("Polygon") && HasRing(coordinates) ==> r == [ExteriorRing(coordinates)]
    ensures geometryType == Some("Polygon") && !HasRing(coordinates) ==> r == []
    ensures geometryType == Some("MultiPolygon") && coordinates.JArray? ==> r == PartRings(coordinates.items)
    ensures geometryType != Some("Polygon") && geometryType != Some("MultiPolygon") ==> r == []
    ensures !coordinates.JArray? ==> r == []
  {
    if geometryType == Some("Polygon") && HasRing(coordinates) then [ExteriorRing(coordinates)]
    else if geometryType == Some("MultiPolygon") && coordinates.JArray? then PartRings(coordinates.items)
    else []
  }

  /** The ring's vertices normalised, dropping those that are rejected. */
  function RingBoundary(ring: seq<RawValue>, project: Projection): (r: seq<LatLng>)
    ensures |r| <= |ring|
    ensures forall k :: 0 <= k < |r| ==> InNycBounds(r[k].latitude, r[k].longitude)
    ensures forall k :: 0 <= k < |r| ==> exists i :: 0 <= i < |ring| && NormalizeCoord(ring[i], project) == Some(r[k])
  {
    if |ring| == 0 then []
    else
      var init := RingBoundary(ring[..|ring| - 1], project);
      match NormalizeCoord(ring[|ring| - 1], project)
      case Some(p) => init + [p]
      case None => init
  }

  /** A single vertex contributes its normalisation when it is accepted, and nothing otherwise. */
  lemma RingBoundarySingle(v: RawValue, project: Projection)
    ensures RingBoundary([v], project) == match NormalizeCoord(v, project) case Some(p) => [p] case None => []
  {
    assert [v][..0] == [];
  }

  /**
   * Vertices are normalised one at a time and in order: the boundary of a
   * concatenation is the concatenation of the boundaries, so every accepted
   * vertex is kept, in its place.
   */
  lemma {:induction false} RingBoundaryAppend(a: seq<RawValue>, b: seq<RawValue>, project: Projection)
    ensures RingBoundary(a + b, project) == RingBoundary(a, project) + RingBoundary(b, project)
    decreases |b|
  {
    if |b| == 0 {
      assert a + b == a;
    } else {
      var b' := b[..|b| - 1];
      assert (a + b)[..|a + b| - 1] == a + b';
      assert (a + b)[|a + b| - 1] == b[|b| - 1];
      RingBoundaryAppend(a, b', project);
    }
  }

  /** A feature is skipped when its precinct number is not finite or its trimmed sector id is blank. */
  predicate Skipped(f: Feature) {
    f.pct.None? || Trim(f.sector) == ""
  }

  /** The entry a ring yields, if it keeps at least three vertices. */
  function RingSector(sectorId: string, precinctNum: int, ring: seq<RawValue>, project: Projection): seq<Sector> {
    var boundary := RingBoundary(ring, project);
    if |boundary| < 3 then [] else [Sector(sectorId, precinctNum, boundary, Extent(boundary).value)]
  }

  function RingSectors(sectorId: string, precinctNum: int, rings: seq<seq<RawValue>>, project: Projection): seq<Sector> {
    if |rings| == 0 then []
    else RingSectors(sectorId, precinctNum, rings[..|rings| - 1], project)
         + RingSector(sectorId, precinctNum, rings[|rings| - 1], project)
  }

  function FeatureSectors(f: Feature, project: Projection): seq<Sector> {
    if Skipped(f) then []
    else RingSectors(Trim(f.sector), f.pct.value, OuterRings(f.geometryType, f.coordinates), project)
  }

  /** The parsed sector list: every surviving ring of every feature, in file order. */
  function ParsedSectors(features: seq<Feature>, project: Projection): seq<Sector> {
    if |features| == 0 then []
    else ParsedSectors(features[..|features| - 1], project) + FeatureSectors(features[|features| - 1], project)
  }

  /** What the parser guarantees of every entry it produces. */
  predicate WellFormed(s: Sector) {
    && |s.boundary| >= 3
    && Ordered(s.boundingBox)
    && Encloses(s.boundingBox, s.boundary)
    && (forall k :: 0 <= k < |s.boundary| ==> InNycBounds(s.boundary[k].latitude, s.boundary[k].longitude))
    && s.sectorId != ""
  }

  /** The entry carries the id and number of a feature that was not skipped. */
  predicate FromFeature(s: Sector, f: Feature) {
    !Skipped(f) && s.sectorId == Trim(f.sector) && Some(s.precinctNum) == f.pct
  }

  lemma {:induction false} RingSectorsShape(sectorId: string, precinctNum: int, rings: seq<seq<RawValue>>, project: Projection)
    requires sectorId != ""
    ensures |RingSectors(sectorId, precinctNum, rings, project)| <= |rings|
    ensures forall k :: 0 <= k < |RingSectors(sectorId, precinctNum, rings, project)| ==>
      var s := RingSectors(sectorId, precinctNum, rings, project)[k];
      WellFormed(s) && s.sectorId == sectorId && s.precinctNum == precinctNum
  {
    if |rings| > 0 {
      RingSectorsShape(sectorId, precinctNum, rings[..|rings| - 1], project);
      var boundary := RingBoundary(rings[|rings| - 1], project);
      ExtentIsTight(boundary);
    }
  }

  /**
   * A feature that is not skipped yields at most one entry per exterior
   * ring, each with the feature's trimmed sector id and precinct number; a
   * skipped feature yields nothing.
   */
  lemma FeatureSectorsShape(f: Feature, project: Projection)
    ensures Skipped(f) ==> FeatureSectors(f, project) == []
    ensures !Skipped(f) ==> |FeatureSectors(f, project)| <= |OuterRings(f.geometryType, f.coordinates)|
    ensures !Skipped(f) ==> |FeatureSectors(f, project)| == |Filter(OuterRings(f.geometryType, f.coordinates), Survives(project))|
    ensures !Skipped(f) ==> forall k :: 0 <= k < |FeatureSectors(f, project)| ==>
      var s := FeatureSectors(f, project)[k];
      WellFormed(s) && FromFeature(s, f)
  {
    if !Skipped(f) {
      RingSectorsShape(Trim(f.sector), f.pct.value, OuterRings(f.geometryType, f.coordinates), project);
      RingSectorsExact(Trim(f.sector), f.pct.value, OuterRings(f.geometryType, f.coordinates), project);
    }
  }

  /** A ring survives when at least three of its vertices are accepted. */
  function Survives(project: Projection): seq<RawValue> -> bool {
    ring => |RingBoundary(ring, project)| >= 3
  }

  /** The entry a surviving ring becomes: its accepted vertices and their min/max box. */
  predicate IsEntryFor(s: Sector, sectorId: string, precinctNum: int, ring: seq<RawValue>, project: Projection) {
    var boundary := RingBoundary(ring, project);
    |boundary| >= 3 && s == Sector(sectorId, precinctNum, boundary, Extent(boundary).value)
  }

  /**
   * The rings of a feature become exactly one entry per surviving ring, in
   * ring order: the k-th entry is the entry of the k-th surviving ring.
   */
  lemma {:induction false} RingSectorsExact(sectorId: string, precinctNum: int, rings: seq<seq<RawValue>>, project: Projection)
    ensures |RingSectors(sectorId, precinctNum, rings, project)| == |Filter(rings, Survives(project))|
    ensures forall k :: 0 <= k < |Filter(rings, Survives(project))| ==>
      IsEntryFor(RingSectors(sectorId, precinctNum, rings, project)[k], sectorId, precinctNum, Filter(rings, Survives(project))[k], project)
  {
    if |rings| > 0 {
      var init := rings[..|rings| - 1];
      var last := rings[|rings| - 1];
      RingSectorsExact(sectorId, precinctNum, init, project);
      assert rings == init + [last];
      FilterAppend(init, [last], Survives(project));
      assert [last][1..] == [];
      RingSectorsExactStep(sectorId, precinctNum, init, last, project);
    }
  }

  /** The induction step of `RingSectorsExact`: the last ring's entry lines up with the last survivor. */
  lemma RingSectorsExactStep(sectorId: string, precinctNum: int, init: seq<seq<RawValue>>, last: seq<RawValue>, project: Projection)
    requires |RingSectors(sectorId, precinctNum, init, project)| == |Filter(init, Survives(project))|
    requires forall k :: 0 <= k < |Filter(init, Survives(project))| ==>
      IsEntryFor(RingSectors(sectorId, precinctNum, init, project)[k], sectorId, precinctNum, Filter(init, Survives(project))[k], project)
    ensures var e := RingSectors(sectorId, precinctNum, init, project) + RingSector(sectorId, precinctNum, last, project);
      var kept := Filter(init, Survives(project)) + (if Survives(project)(last) then [last] else []);
      && |e| == |kept|
      && forall k :: 0 <= k < |kept| ==> IsEntryFor(e[k], sectorId, precinctNum, kept[k], project)
  {
    var a := RingSectors(sectorId, precinctNum, init, project);
    var fa := Filter(init, Survives(project));
    var e := a + RingSector(sectorId, precinctNum, last, project);
    var kept := fa + (if Survives(project)(last) then [last] else []);
    forall k | 0 <= k < |kept| ensures IsEntryFor(e[k], sectorId, precinctNum, kept[k], project) {
      if k < |fa| {
        assert e[k] == a[k] && kept[k] == fa[k];
      }
    }
  }

  /** Every surviving ring yields an entry carrying its accepted vertices. */
  lemma SurvivingRingGivesEntry(sectorId: string, precinctNum: int, rings: seq<seq<RawValue>>, j: nat, project: Projection)
    requires j < |rings| && |RingBoundary(rings[j], project)| >= 3
    ensures exists k ::
      && 0 <= k < |RingSectors(sectorId, precinctNum, rings, project)|
      && IsEntryFor(RingSectors(sectorId, precinctNum, rings, project)[k], sectorId, precinctNum, rings[j], project)
  {
    RingSectorsExact(sectorId, precinctNum, rings, project);
    var kept := Filter(rings, Survives(project));
    assert Survives(project)(rings[j]);
    FilterComplete(rings, Survives(project));
    var k :| 0 <= k < |kept| && kept[k] == rings[j];
  }

  /** A well-formed entry that carries the id and number of one of the features. */
  predicate Traceable(s: Sector, features: seq<Feature>) {
    WellFormed(s) && exists i :: 0 <= i < |features| && FromFeature(s, features[i])
  }

  /** An entry traceable to the features but the last stays traceable once the last is added. */
  lemma TraceableExtend(s: Sector, features: seq<Feature>)
    requires |features| > 0 && Traceable(s, features[..|features| - 1])
    ensures Traceable(s, features)
  {
    var init := features[..|features| - 1];
    var i :| 0 <= i < |init| && FromFeature(s, init[i]);
    assert features[i] == init[i];
  }

  /**
   * Every parsed sector has at least three vertices inside the city box, an
   * ordered bounding box that contains all of them, and the trimmed id and
   * precinct number of a feature that was not skipped.
   */
  lemma {:induction false} ParsedSectorsWellFormed(features: seq<Feature>, project: Projection)
    ensures forall k :: 0 <= k < |ParsedSectors(features, project)| ==>
      Traceable(ParsedSectors(features, project)[k], features)
  {
    if |features| > 0 {
      var init := features[..|features| - 1];
      var last := features[|features| - 1];
      ParsedSectorsWellFormed(init, project);
      FeatureSectorsShape(last, project);
      TraceableAppend(ParsedSectors(init, project), FeatureSectors(last, project), features);
    }
  }

  /** The entries of the features but the last, followed by the last feature's entries, are traceable. */
  lemma TraceableAppend(a: seq<Sector>, b: seq<Sector>, features: seq<Feature>)
    requires |features| > 0
    requires forall k :: 0 <= k < |a| ==> Traceable(a[k], features[..|features| - 1])
    requires forall k :: 0 <= k < |b| ==> WellFormed(b[k]) && FromFeature(b[k], features[|features| - 1])
    ensures forall k :: 0 <= k < |a + b| ==> Traceable((a + b)[k], features)
  {
    forall k | 0 <= k < |a + b|
      ensures Traceable((a + b)[k], features)
    {
      if k < |a| {
        assert (a + b)[k] == a[k];
        TraceableExtend(a[k], features);
      } else {
        assert (a + b)[k] == b[k - |a|];
      }
    }
  }

  /** One more ring adds that ring's entry, if any, at the end. */
  lemma RingSectorsStep(sectorId: string, precinctNum: int, rings: seq<seq<RawValue>>, j: nat, project: Projection)
    requires j < |rings|
    ensures RingSectors(sectorId, precinctNum, rings[..j + 1], project)
         == RingSectors(sectorId, precinctNum, rings[..j], project) + RingSector(sectorId, precinctNum, rings[j], project)
  {
    assert rings[..j + 1][..j] == rings[..j];
  }

  /**
   * The body of the feature loop of `getParsedSectors`: every exterior ring
   * in order, each ring with at least three accepted vertices pushed with
   * its min/max bounding box.
   */
  method ParseFeature(feature: Feature, project: Projection) returns (entries: seq<Sector>)
    ensures entries == FeatureSectors(feature, project)
  {
    entries := [];
    if Skipped(feature) {
      return;
    }
    var sectorId := Trim(feature.sector);
    var precinctNum := feature.pct.value;
    var rings := OuterRings(feature.geometryType, feature.coordinates);
    for j := 0 to |rings|
      invariant entries == RingSectors(sectorId, precinctNum, rings[..j], project)
    {
      RingSectorsStep(sectorId, precinctNum, rings, j, project);
      var boundary := RingBoundary(rings[j], project);
      if |boundary| < 3 {
        continue;
      }
      var box := ComputeExtent(boundary);
      entries := entries + [Sector(sectorId, precinctNum, boundary, box.value)];
    }
    assert rings[..|rings|] == rings;
  }

  /** `getParsedSectors`: the entries of every feature, in file order. */
  method ParseSectors(features: seq<Feature>, project: Projection) returns (parsed: seq<Sector>)
    ensures parsed == ParsedSectors(features, project)
    ensures forall k :: 0 <= k < |parsed| ==> WellFormed(parsed[k])
  {
    parsed := [];
    for i := 0 to |features|
      invariant parsed == ParsedSectors(features[..i], project)
    {
      assert features[..i + 1][..i] == features[..i];
      var entries := ParseFeature(features[i], project);
      parsed := parsed + entries;
    }
    assert features[..|features|] == features;
    ParsedSectorsWellFormed(features, project);
  }

  /** The inclusive box test and the even-odd test both accept the point. */
  predicate SectorMatches(s: Sector, p: LatLng) {
    InBox(p, s.boundingBox) && Contains(p, s.boundary)
  }

  /** The first sector in list order whose box and polygon both contain the point. */
  function SectorAtLocation(sectors: seq<Sector>, p: LatLng): (r: Option<Sector>)
    ensures r.Some? ==> r.value in sectors && SectorMatches(r.value, p)
    ensures r.None? <==> forall k :: 0 <= k < |sectors| ==> !SectorMatches(sectors[k], p)
  {
    if |sectors| == 0 then None
    else if SectorMatches(sectors[0], p) then Some(sectors[0])
    else
      var r := SectorAtLocation(sectors[1..], p);
      assert forall k :: 1 <= k < |sectors| ==> sectors[k] == sectors[1..][k - 1];
      r
  }

  /** The sector found is the first match: every earlier sector is rejected. */
  lemma {:induction false} SectorAtLocationIsFirst(sectors: seq<Sector>, p: LatLng)
    requires SectorAtLocation(sectors, p).Some?
    ensures exists i :: 0 <= i < |sectors| && sectors[i] == SectorAtLocation(sectors, p).value
                        && forall j :: 0 <= j < i ==> !SectorMatches(sectors[j], p)
  {
    if !SectorMatches(sectors[0], p) {
      var rest := sectors[1..];
      assert SectorAtLocation(sectors, p) == SectorAtLocation(rest, p);
      SectorAtLocationIsFirst(rest, p);
      var i :| 0 <= i < |rest| && rest[i] == SectorAtLocation(rest, p).value
        && forall j :: 0 <= j < i ==> !SectorMatches(rest[j], p);
      forall j | 0 <= j < i + 1 ensures !SectorMatches(sectors[j], p) {
        if j > 0 { assert sectors[j] == rest[j - 1]; }
      }
      assert sectors[i + 1] == rest[i];
    } else {
      assert sectors[0] == SectorAtLocation(sectors, p).value;
    }
  }

  /** `findSectorAtLocation`: a scan with the box pre-check and an early return. */
  method FindSectorAtLocation(sectors: seq<Sector>, point: LatLng) returns (found: Option<Sector>)
    ensures found == SectorAtLocation(sectors, point)
  {
    for i := 0 to |sectors|
      invariant SectorAtLocation(sectors, point) == SectorAtLocation(sectors[i..], point)
    {
      assert sectors[i..][1..] == sectors[i + 1..];
      if !InBox(point, sectors[i].boundingBox) {
        continue;
      }
      var inside := IsPointInPolygon(point, sectors[i].boundary);
      if inside {
        return Some(sectors[i]);
      }
    }
    assert sectors[|sectors|..] == [];
    return None;
  }

  /** The first sector in list order whose polygon contains the point, with no box test. */
  function SectorContaining(sectors: seq<Sector>, p: LatLng): Option<Sector> {
    if |sectors| == 0 then None
    else if Contains(p, sectors[0].boundary) then Some(sectors[0])
    else SectorContaining(sectors[1..], p)
  }

  /**
   * The inclusive box pre-check never rejects a point the parity test
   * accepts: over boxes that enclose their rings (as parsed sectors'
   * do), the search finds the same sector as one without the pre-check.
   */
  lemma {:induction false} BoxPrecheckNeverRejects(sectors: seq<Sector>, p: LatLng)
    requires forall k :: 0 <= k < |sectors| ==> Encloses(sectors[k].boundingBox, sectors[k].boundary)
    ensures SectorAtLocation(sectors, p) == SectorContaining(sectors, p)
  {
    if |sectors| > 0 {
      BoxPrefilterSound(p, sectors[0].boundary, sectors[0].boundingBox);
      assert forall k :: 0 <= k < |sectors[1..]| ==> sectors[1..][k] == sectors[k + 1];
      BoxPrecheckNeverRejects(sectors[1..], p);
    }
  }

  /** `getSectorsForPrecinct`: the sectors of one precinct, in list order. */
  function SectorsForPrecinct(sectors: seq<Sector>, precinctNum: int): (r: seq<Sector>)
    ensures forall k :: 0 <= k < |r| ==> r[k] in sectors && r[k].precinctNum == precinctNum
    ensures forall k :: 0 <= k < |sectors| && sectors[k].precinctNum == precinctNum ==> sectors[k] in r
  {
    FilterSound(sectors, (s: Sector) => s.precinctNum == precinctNum);
    FilterComplete(sectors, (s: Sector) => s.precinctNum == precinctNum);
    Filter(sectors, (s: Sector) => s.precinctNum == precinctNum)
  }

  /** The precinct's sectors keep the list order: selecting from a concatenation concatenates the selections. */
  lemma SectorsForPrecinctAppend(a: seq<Sector>, b: seq<Sector>, precinctNum: int)
    ensures SectorsForPrecinct(a + b, precinctNum) == SectorsForPrecinct(a, precinctNum) + SectorsForPrecinct(b, precinctNum)
  {
    FilterAppend(a, b, (s: Sector) => s.precinctNum == precinctNum);
  }

}
