/**
 * Address geocoding restricted to New York City: the query suffix rule,
 * the inclusive city box, and the choice among the provider's candidates.
 * The HTTP exchange is a parameter: the candidates the provider returned.
 */
module Geocode {
  import opened Wrappers
  import opened Text
  import opened Geometry

  /** The city box used to accept a geocoded point (inclusive on all sides). */
  const CityMinLat: real := 40.49
  const CityMaxLat: real := 40.92
  const CityMinLng: real := -74.26
  const CityMaxLng: real := -73.70

  predicate IsWithinNyc(lat: real, lng: real) {
    CityMinLat <= lat <= CityMaxLat && CityMinLng <= lng <= CityMaxLng
  }

  const CitySuffix: string := ", New York City, NY"

  /** The text sent to the geocoder: the address, with the city appended unless it says "new york". */
  function NycQuery(address: string): (q: string)
    ensures StartsWith(q, address)
    ensures Includes(ToLower(address), "new york") ==> q == address
    ensures !Includes(ToLower(address), "new york") ==> q == address + ", New York City, NY"
  {
    if Includes(ToLower(address), "new york") then address else address + CitySuffix
  }

  /** The appended suffix itself mentions "new york" once lower-cased. */
  lemma SuffixMentionsNewYork(address: string)
    ensures Includes(ToLower(address + CitySuffix), "new york")
  {
    var q := address + CitySuffix;
    var lq := ToLower(q);
    var k := |address| + 2;
    forall i | 0 <= i < 8 ensures lq[k + i] == "new york"[i] {
      assert q[k + i] == CitySuffix[2 + i];
    }
    assert lq[k..k + 8] == "new york";
    assert OccursAt(lq, "new york", k);
  }

  /** Every query mentions "new york", so building the query twice changes nothing. */
  lemma NycQueryIdempotent(address: string)
    ensures Includes(ToLower(NycQuery(address)), "new york")
    ensures NycQuery(NycQuery(address)) == NycQuery(address)
  {
    if !Includes(ToLower(address), "new york") {
      SuffixMentionsNewYork(address);
    }
  }

  /** One result of the provider; its location may be missing. */
  datatype Candidate = Candidate(location: Option<LatLng>)

  /** What the geocoding fetch produced. */
  datatype GeocodeResponse =
    | Answer(results: Option<seq<Candidate>>)
    | GeocodeThrew   // network failure or unparsable body

  /** The `find` test: a candidate with a location inside the city box. */
  predicate InCity(c: Candidate) {
    c.location.Some? && IsWithinNyc(c.location.value.latitude, c.location.value.longitude)
  }

  /** Index of the first candidate in the city box, if any. */
  function FirstInCity(results: seq<Candidate>): (r: Option<nat>)
    ensures r.Some? ==> r.value < |results| && InCity(results[r.value])
    ensures r.Some? ==> forall j :: 0 <= j < r.value ==> !InCity(results[j])
    ensures r.None? ==> forall j :: 0 <= j < |results| ==> !InCity(results[j])
  {
    if results == [] then None
    else if InCity(results[0]) then Some(0)
    else
      match FirstInCity(results[1..])
      case Some(k) => Some(k + 1)
      case None => None
  }

  /**
   * The point chosen from a non-empty result list: the first in-box
   * candidate, else the first candidate; a chosen point outside the box is
   * refused, and a first candidate without a location throws (null).
   */
  function SelectCandidate(results: seq<Candidate>): (r: Option<LatLng>)
    requires |results| > 0
    ensures r.Some? ==> IsWithinNyc(r.value.latitude, r.value.longitude)
  {
    var chosen := match FirstInCity(results)
      case Some(k) => results[k]
      case None => results[0];
    if chosen.location.None? then None
    else if !IsWithinNyc(chosen.location.value.latitude, chosen.location.value.longitude) then None
    else chosen.location
  }

  /** `geocodeAddress` after the fetch: a missing or empty result list or a failure gives null. */
  function GeocodeResult(resp: GeocodeResponse): (r: Option<LatLng>)
    ensures r.Some? ==> IsWithinNyc(r.value.latitude, r.value.longitude)
    ensures resp.GeocodeThrew? || resp.results.None? || resp.results.value == [] ==> r == None
  {
    if resp.GeocodeThrew? || resp.results.None? || resp.results.value == [] then None
    else SelectCandidate(resp.results.value)
  }

  /**
   * The fallback to the first result never yields a point: a point is
   * returned exactly when some candidate lies in the box, and it is the
   * first such candidate's location.
   */
  lemma SelectionIsFirstInCity(results: seq<Candidate>)
    requires |results| > 0
    ensures SelectCandidate(results).Some? <==> exists j :: 0 <= j < |results| && InCity(results[j])
    ensures SelectCandidate(results).Some? ==>
      SelectCandidate(results) == results[FirstInCity(results).value].location
  {
    if FirstInCity(results).None? {
      assert !InCity(results[0]);
    }
  }
}
