/**
 * The search screen: the precinct query filter, the address search with
 * its own tier order (hint, then boundary, then nearest) and display
 * point, and the sector of a saved home or work place.
 */
module Search {
  import opened Wrappers
  import opened Lists
  import opened Text
  import opened Geometry
  import opened Records
  import opened Sectors
  import opened Precincts
  import opened Geocode
  import opened Resolver

  /** A precinct matches a lower-cased query through its name, address, borough, number or phone. */
  predicate MatchesQuery(p: Precinct, q: string) {
    || Includes(ToLower(p.name), q)
    || Includes(ToLower(p.address), q)
    || Includes(ToLower(p.borough), q)
    || Includes(IntToString(p.precinctNum), q)
    || Includes(p.phone, q)
  }

  /** `precincts.filter(...)` with the query test. */
  function Matching(precincts: seq<Precinct>, q: string): (r: seq<Precinct>)
    ensures |r| <= |precincts|
  {
    Filter(precincts, p => MatchesQuery(p, q))
  }

  /** The filter keeps exactly the matching precincts: each result is stored and each stored match is a result. */
  lemma MatchingIsFilter(precincts: seq<Precinct>, q: string)
    ensures forall k :: 0 <= k < |Matching(precincts, q)| ==>
      Matching(precincts, q)[k] in precincts && MatchesQuery(Matching(precincts, q)[k], q)
    ensures forall k :: 0 <= k < |precincts| && MatchesQuery(precincts[k], q) ==> precincts[k] in Matching(precincts, q)
  {
    FilterSound(precincts, p => MatchesQuery(p, q));
    FilterComplete(precincts, p => MatchesQuery(p, q));
  }

  /** The search results keep the stored order: filtering a concatenation concatenates the filtered parts. */
  lemma MatchingAppend(a: seq<Precinct>, b: seq<Precinct>, q: string)
    ensures Matching(a + b, q) == Matching(a, q) + Matching(b, q)
  {
    FilterAppend(a, b, p => MatchesQuery(p, q));
  }

  /** The result list for a query: empty for a blank query, else the precincts matching its lower-cased form. */
  function SearchResults(precincts: seq<Precinct>, query: string): (r: seq<Precinct>)
    ensures Trim(query) == "" ==> r == []
    ensures Trim(query) != "" ==> r == Matching(precincts, ToLower(query))
  {
    if Trim(query) == "" then [] else Matching(precincts, ToLower(query))
  }

  /** Every precinct whose number contains the query's digits is listed. */
  lemma NumberQueryFindsPrecinct(precincts: seq<Precinct>, query: string, k: nat)
    requires k < |precincts| && Trim(query) != ""
    requires Includes(IntToString(precincts[k].precinctNum), ToLower(query))
    ensures precincts[k] in SearchResults(precincts, query)
  {
    MatchingIsFilter(precincts, ToLower(query));
  }

  /** The address search's precinct: the Places hint, then boundary containment, then the nearest centroid. */
  function SearchChain(precincts: seq<Precinct>, p: LatLng, hint: Option<int>, dist: Distance): (r: Option<Precinct>)
    ensures r.Some? ==> r.value in precincts
    ensures r.None? <==> |precincts| == 0
  {
    var byHint := HintPrecinct(precincts, hint);
    if byHint.Some? then byHint
    else
      var byBoundary := PrecinctAtLocation(precincts, p);
      if byBoundary.Some? then byBoundary else NearestPrecinct(precincts, p, dist)
  }

  /**
   * The two screens order their tiers differently: when a boundary holds
   * precinct A but the hint names another stored precinct B, a map click
   * shows A and an address search shows B.
   */
  lemma ChainsDisagree(precincts: seq<Precinct>, sectors: seq<Sector>, p: LatLng, hint: Option<int>,
                       dist: Distance, a: Precinct, b: Precinct)
    requires PrecinctAtLocation(precincts, p) == Some(a)
    requires HintPrecinct(precincts, hint) == Some(b)
    ensures MapChain(precincts, sectors, p, hint, dist) == Some(a)
    ensures SearchChain(precincts, p, hint, dist) == Some(b)
  {
  }

  /** Without a hint the map click and the address search agree on a point inside a boundary. */
  lemma ChainsAgreeWithoutHint(precincts: seq<Precinct>, sectors: seq<Sector>, p: LatLng, dist: Distance)
    requires exists k :: 0 <= k < |precincts| && Contains(p, precincts[k].boundary)
    ensures MapChain(precincts, sectors, p, None, dist) == SearchChain(precincts, p, None, dist)
    ensures SearchChain(precincts, p, None, dist) == PrecinctAtLocation(precincts, p)
  {
  }

  /** Where the map marker goes: the station coordinate on each axis where it exists, else the geocoded one. */
  function DisplayPoint(precinct: Precinct, p: LatLng): (r: LatLng)
    ensures precinct.stationLat.Some? ==> r.latitude == precinct.stationLat.value
    ensures precinct.stationLat.None? ==> r.latitude == p.latitude
    ensures precinct.stationLng.Some? ==> r.longitude == precinct.stationLng.value
    ensures precinct.stationLng.None? ==> r.longitude == p.longitude
  {
    LatLng(precinct.stationLat.GetOr(p.latitude), precinct.stationLng.GetOr(p.longitude))
  }

  /** The outcome of an address search. */
  datatype AddressOutcome =
    | Ignored        // blank query, or a search already running
    | NotLocated     // the geocoder found no point in the city
    | NoPrecinct     // no precinct could be chosen
    | Shown(precinct: Precinct, sector: Option<Sector>, searchedAddress: string, location: LatLng)

  /**
   * `handleAddressSearch`: the trimmed query is geocoded (the answer is the
   * parameter `resp`), the precinct is chosen by the search chain, the
   * sector is the first-match sector at the geocoded point, and the marker
   * goes to the display point.
   */
  method AddressSearch(precincts: seq<Precinct>, sectors: seq<Sector>, query: string, geocoding: bool,
                       resp: GeocodeResponse, hint: Option<int>, dist: Distance)
    returns (outcome: AddressOutcome)
    ensures Trim(query) == "" || geocoding <==> outcome.Ignored?
    ensures outcome.NotLocated? <==> Trim(query) != "" && !geocoding && GeocodeResult(resp).None?
    ensures outcome.NoPrecinct? <==> Trim(query) != "" && !geocoding && GeocodeResult(resp).Some? && |precincts| == 0
    ensures outcome.Shown? ==>
      var p := GeocodeResult(resp).value;
      && IsWithinNyc(p.latitude, p.longitude)
      && Some(outcome.precinct) == SearchChain(precincts, p, hint, dist)
      && outcome.sector == SectorAtLocation(sectors, p)
      && outcome.searchedAddress == Trim(query)
      && outcome.location == DisplayPoint(outcome.precinct, p)
  {
    if Trim(query) == "" || geocoding {
      return Ignored;
    }
    var searchQuery := Trim(query);
    var geocoded := GeocodeResult(resp);
    if geocoded.None? {
      return NotLocated;
    }
    var point := geocoded.value;
    var precinct: Option<Precinct> := None;
    if hint.Some? && hint.value != 0 {
      precinct := PrecinctByNumber(precincts, hint.value);
    }
    if precinct.None? {
      precinct := FindPrecinctAtLocation(precincts, point);
    }
    if precinct.None? {
      precinct := FindNearestPrecinct(precincts, point, dist);
    }
    var sector := FindSectorAtLocation(sectors, point);
    if precinct.None? {
      return NoPrecinct;
    }
    return Shown(precinct.value, sector, searchQuery, DisplayPoint(precinct.value, point));
  }

  /** The first sector in the list with the given id (`.find`). */
  function FirstWithId(sectors: seq<Sector>, sectorId: string): (r: Option<Sector>)
    ensures r.Some? ==> r.value in sectors && r.value.sectorId == sectorId
    ensures r.None? <==> forall k :: 0 <= k < |sectors| ==> sectors[k].sectorId != sectorId
  {
    Find(sectors, (s: Sector) => s.sectorId == sectorId)
  }

  /** The sector belongs to the saved place's precinct and carries its sector id. */
  predicate OfPlace(s: Sector, place: SavedPlace) {
    s.precinctNum == place.precinctNum && s.sectorId == place.sectorId
  }

  /**
   * The sector shown for a saved place: none without a sector id, else the
   * first sector of the place's precinct carrying that id.
   */
  function SavedPlaceSector(sectors: seq<Sector>, place: SavedPlace): (r: Option<Sector>)
    ensures r.Some? ==> place.sectorId != "" && OfPlace(r.value, place)
    ensures r.Some? ==>
      exists k :: 0 <= k < |sectors| && sectors[k] == r.value && forall j :: 0 <= j < k ==> !OfPlace(sectors[j], place)
    ensures r.None? <==> place.sectorId == "" || forall k :: 0 <= k < |sectors| ==> !OfPlace(sectors[k], place)
  {
    if place.sectorId == "" then None
    else
      FindAfterFilter(sectors, (s: Sector) => s.precinctNum == place.precinctNum,
                      (s: Sector) => s.sectorId == place.sectorId);
      FirstWithId(SectorsForPrecinct(sectors, place.precinctNum), place.sectorId)
  }

  /** What pressing a saved place selects. */
  datatype PlaceSelection =
    | NothingSelected
    | PlaceSelected(precinct: Precinct, sector: Option<Sector>, searchedAddress: string, location: LatLng)

  /** `handleSavedPlacePress`: nothing when the place's precinct is not stored. */
  function SavedPlacePress(precincts: seq<Precinct>, sectors: seq<Sector>, place: SavedPlace): (r: PlaceSelection)
    ensures r.NothingSelected? <==> PrecinctByNumber(precincts, place.precinctNum).None?
    ensures r.PlaceSelected? ==>
      && r.precinct in precincts
      && r.precinct.precinctNum == place.precinctNum
      && (r.sector.Some? ==> r.sector.value.precinctNum == r.precinct.precinctNum)
      && r.location == LatLng(place.latitude, place.longitude)
      && r.searchedAddress == place.address
    ensures r.PlaceSelected? ==> r.sector == SavedPlaceSector(sectors, place)
    ensures r.PlaceSelected? && r.sector.Some? ==> OfPlace(r.sector.value, place)
  {
    var precinct := PrecinctByNumber(precincts, place.precinctNum);
    if precinct.None? then NothingSelected
    else PlaceSelected(precinct.value, SavedPlaceSector(sectors, place), place.address,
                       LatLng(place.latitude, place.longitude))
  }
}
