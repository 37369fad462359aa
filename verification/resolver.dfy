/**
 * The map screen's point-to-jurisdiction resolution: the focus point of a
 * precinct, the four-tier chain behind a map click, the two-tier chain
 * behind "Where am I?", and the sector-mismatch rule of a polygon click.
 * The precinct store and the parsed sectors are given sequences; the
 * Places hint and the distance are parameters.
 */
module Resolver {
  import opened Wrappers
  import opened Geometry
  import opened Records
  import opened Sectors
  import opened Precincts

  /** A point both of whose coordinates are finite numbers. */
  predicate IsValidPoint(lat: Option<real>, lng: Option<real>) {
    lat.Some? && lng.Some?
  }

  /**
   * Where the map centres on a precinct: its station when both station
   * coordinates are finite, else its centroid; nothing for no precinct.
   */
  function FocusPoint(precinct: Option<Precinct>): (r: Option<LatLng>)
    ensures r.None? <==> precinct.None?
    ensures r.Some? && precinct.value.stationLat.Some? && precinct.value.stationLng.Some? ==>
      r.value == LatLng(precinct.value.stationLat.value, precinct.value.stationLng.value)
    ensures r.Some? && (precinct.value.stationLat.None? || precinct.value.stationLng.None?) ==>
      r.value == precinct.value.Centroid()
  {
    if precinct.None? then None
    else if precinct.value.stationLat.Some? && precinct.value.stationLng.Some? then
      Some(LatLng(precinct.value.stationLat.value, precinct.value.stationLng.value))
    else Some(precinct.value.Centroid())
  }

  /** The stored precinct a Places hint names; a missing or 0 hint names none. */
  function HintPrecinct(precincts: seq<Precinct>, hint: Option<int>): (r: Option<Precinct>)
    ensures r.Some? ==> r.value in precincts && hint == Some(r.value.precinctNum)
  {
    if hint.Some? && hint.value != 0 then PrecinctByNumber(precincts, hint.value) else None
  }

  /** The precinct `findNearestPrecinct` answers with: none only for an empty store. */
  function NearestPrecinct(precincts: seq<Precinct>, p: LatLng, dist: Distance): (r: Option<Precinct>)
    ensures r.None? <==> |precincts| == 0
    ensures r.Some? ==> r.value in precincts
  {
    if |precincts| == 0 then None else Some(precincts[IndexOfNearest(precincts, p, dist)])
  }

  /** The precinct of the sector found at the point, if that number is stored. */
  function SectorPrecinct(precincts: seq<Precinct>, sector: Option<Sector>): (r: Option<Precinct>)
    ensures r.Some? ==> r.value in precincts && sector.Some? && r.value.precinctNum == sector.value.precinctNum
  {
    if sector.Some? then PrecinctByNumber(precincts, sector.value.precinctNum) else None
  }

  /**
   * The map click's precinct: boundary containment, then the precinct of
   * the sector at the point, then the Places hint, then the nearest centroid.
   */
  function MapChain(precincts: seq<Precinct>, sectors: seq<Sector>, p: LatLng, hint: Option<int>, dist: Distance)
    : (r: Option<Precinct>)
    ensures r.Some? ==> r.value in precincts
    ensures r.None? <==> |precincts| == 0
  {
    var byBoundary := PrecinctAtLocation(precincts, p);
    if byBoundary.Some? then byBoundary
    else
      var bySector := SectorPrecinct(precincts, SectorAtLocation(sectors, p));
      if bySector.Some? then bySector
      else
        var byHint := HintPrecinct(precincts, hint);
        if byHint.Some? then byHint else NearestPrecinct(precincts, p, dist)
  }

  /**
   * The tiers in order: a boundary hit decides alone; the sector's precinct
   * is used only when no boundary contains the point; the hint only when
   * both fail; the nearest centroid only when all three fail.
   */
  lemma MapChainTiers(precincts: seq<Precinct>, sectors: seq<Sector>, p: LatLng, hint: Option<int>, dist: Distance)
    ensures var byBoundary := PrecinctAtLocation(precincts, p);
      var bySector := SectorPrecinct(precincts, SectorAtLocation(sectors, p));
      var byHint := HintPrecinct(precincts, hint);
      var r := MapChain(precincts, sectors, p, hint, dist);
      && (byBoundary.Some? ==> r == byBoundary && Contains(p, r.value.boundary))
      && (byBoundary.None? && bySector.Some? ==> r == bySector)
      && (byBoundary.None? && bySector.None? && byHint.Some? ==> r == byHint)
      && (byBoundary.None? && bySector.None? && byHint.None? ==> r == NearestPrecinct(precincts, p, dist))
  {
  }

  /** When a boundary contains the point, neither the hint nor the distance matter. */
  lemma BoundaryHitIgnoresLaterTiers(precincts: seq<Precinct>, sectors: seq<Sector>, p: LatLng,
                                     hint1: Option<int>, hint2: Option<int>, dist1: Distance, dist2: Distance)
    requires exists k :: 0 <= k < |precincts| && Contains(p, precincts[k].boundary)
    ensures MapChain(precincts, sectors, p, hint1, dist1) == MapChain(precincts, sectors, p, hint2, dist2)
    ensures MapChain(precincts, sectors, p, hint1, dist1) == PrecinctAtLocation(precincts, p)
  {
  }

  /**
   * `resolvePrecinctAndSector`: the sector is the raw first-match sector,
   * whichever tier chose the precinct.
   */
  method ResolvePrecinctAndSector(precincts: seq<Precinct>, sectors: seq<Sector>, point: LatLng,
                                  hint: Option<int>, dist: Distance)
    returns (precinct: Option<Precinct>, sector: Option<Sector>)
    ensures sector == SectorAtLocation(sectors, point)
    ensures precinct == MapChain(precincts, sectors, point, hint, dist)
  {
    sector := FindSectorAtLocation(sectors, point);
    precinct := None;
    if precinct.None? {
      precinct := FindPrecinctAtLocation(precincts, point);
    }
    if precinct.None? && sector.Some? {
      precinct := PrecinctByNumber(precincts, sector.value.precinctNum);
    }
    if precinct.None? {
      if hint.Some? && hint.value != 0 {
        precinct := PrecinctByNumber(precincts, hint.value);
      }
    }
    if precinct.None? {
      precinct := FindNearestPrecinct(precincts, point, dist);
    }
  }

  /** What the map shows after a click: the chosen precinct and sector, and the clicked point. */
  datatype Selection = Selection(precinct: Option<Precinct>, sector: Option<Sector>, location: LatLng)

  /** A map click: ignored (no selection) unless both coordinates are finite. */
  method HandleMapClick(precincts: seq<Precinct>, sectors: seq<Sector>, lat: Option<real>, lng: Option<real>,
                        hint: Option<int>, dist: Distance)
    returns (selection: Option<Selection>)
    ensures selection.None? <==> !IsValidPoint(lat, lng)
    ensures selection.Some? ==>
      var p := LatLng(lat.value, lng.value);
      selection.value == Selection(MapChain(precincts, sectors, p, hint, dist), SectorAtLocation(sectors, p), p)
  {
    if !IsValidPoint(lat, lng) {
      return None;
    }
    var point := LatLng(lat.value, lng.value);
    var precinct, sector := ResolvePrecinctAndSector(precincts, sectors, point, hint, dist);
    return Some(Selection(precinct, sector, point));
  }

  /** "Where am I?": the hint first, then boundary containment, and no nearest fallback. */
  function DetectChain(precincts: seq<Precinct>, p: LatLng, hint: Option<int>): (r: Option<Precinct>)
    ensures r.Some? ==> r.value in precincts
    ensures r.None? <==>
      && HintPrecinct(precincts, hint).None?
      && forall k :: 0 <= k < |precincts| ==> !Contains(p, precincts[k].boundary)
  {
    var byHint := HintPrecinct(precincts, hint);
    if byHint.Some? then byHint else PrecinctAtLocation(precincts, p)
  }

  /** The outcome of "Where am I?". */
  datatype Detection =
    | InvalidLocation
    | Located(point: LatLng, precinct: Option<Precinct>, sector: Option<Sector>)

  /**
   * `detectUserLocation` after the position is known: a non-finite position
   * is refused; otherwise the sector is looked up only when a precinct was found.
   */
  method DetectUserLocation(precincts: seq<Precinct>, sectors: seq<Sector>, lat: Option<real>, lng: Option<real>,
                            hint: Option<int>)
    returns (outcome: Detection)
    ensures outcome.InvalidLocation? <==> !IsValidPoint(lat, lng)
    ensures outcome.Located? ==>
      var p := LatLng(lat.value, lng.value);
      && outcome.point == p
      && outcome.precinct == DetectChain(precincts, p, hint)
      && outcome.sector == (if outcome.precinct.Some? then SectorAtLocation(sectors, p) else None)
  {
    if !IsValidPoint(lat, lng) {
      return InvalidLocation;
    }
    var point := LatLng(lat.value, lng.value);
    var precinct: Option<Precinct> := None;
    if hint.Some? && hint.value != 0 {
      precinct := PrecinctByNumber(precincts, hint.value);
    }
    if precinct.None? {
      precinct := FindPrecinctAtLocation(precincts, point);
    }
    var sector: Option<Sector> := None;
    if precinct.Some? {
      sector := FindSectorAtLocation(sectors, point);
    }
    return Located(point, precinct, sector);
  }

  /** Unlike a map click, "Where am I?" finds nothing outside every boundary when the hint fails. */
  lemma DetectHasNoNearestFallback(precincts: seq<Precinct>, sectors: seq<Sector>, p: LatLng, dist: Distance)
    requires |precincts| > 0
    requires forall k :: 0 <= k < |precincts| ==> !Contains(p, precincts[k].boundary)
    ensures DetectChain(precincts, p, None) == None
    ensures MapChain(precincts, sectors, p, None, dist).Some?
  {
  }

  /** What a click on a precinct polygon selects. */
  datatype PolygonSelection = NoChange | Select(precinct: Precinct, sector: Option<Sector>)

  /**
   * A click on the polygon of precinct `precinctNum`: nothing for an unknown
   * number; with a non-finite click point, the precinct alone (its focus
   * point always exists); otherwise the sector at the point, kept only when
   * it belongs to the clicked precinct.
   */
  function PolygonClick(precincts: seq<Precinct>, sectors: seq<Sector>, precinctNum: int,
                        lat: Option<real>, lng: Option<real>): (r: PolygonSelection)
    ensures r.Select? <==> PrecinctByNumber(precincts, precinctNum).Some?
    ensures r.Select? ==> r.precinct in precincts && r.precinct.precinctNum == precinctNum
    ensures r.Select? && r.sector.Some? ==>
      && r.sector.value.precinctNum == r.precinct.precinctNum
      && IsValidPoint(lat, lng)
      && r.sector == SectorAtLocation(sectors, LatLng(lat.value, lng.value))
  {
    var precinct := PrecinctByNumber(precincts, precinctNum);
    if precinct.None? then NoChange
    else if !IsValidPoint(lat, lng) then
      if FocusPoint(precinct).Some? then Select(precinct.value, None) else NoChange
    else
      var sector := SectorAtLocation(sectors, LatLng(lat.value, lng.value));
      Select(precinct.value, if sector.Some? && sector.value.precinctNum == precinct.value.precinctNum then sector else None)
  }
}
