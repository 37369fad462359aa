/**
 * The "nearest NYPD precinct" lookup over a Places Nearby Search answer:
 * the first-qualifying-place scan shared by the nearby-precinct API route
 * and the direct Places client, the route's request handling, and the
 * client that turns the route's JSON reply into a precinct hint.
 * The HTTP exchange itself is a parameter: the answer the provider gave.
 */
module Nearby {
  import opened Wrappers
  import opened Names

  /** One place of the provider's answer; a place without a name makes the scan throw. */
  datatype Place = Place(name: Option<string>)

  /** What the Places fetch produced. */
  datatype PlacesResponse =
    | NotOk                                                // HTTP status outside 2xx
    | Payload(status: string, results: Option<seq<Place>>) // parsed JSON body
    | FetchThrew                                           // network failure or unparsable body

  /** Outcome of scanning the places in provider order. */
  datatype Scan = Found(num: int) | NotFound | Threw

  /** A place name whose extracted number is a known precinct. */
  predicate Qualifies(name: string) {
    var num := ExtractPrecinctNum(name);
    num.Some? && IsKnownPrecinct(num.value)
  }

  /** The first place, in provider order, that qualifies; a nameless place before it throws. */
  function FirstQualifying(places: seq<Place>): (r: Scan)
    ensures r.Found? ==> IsKnownPrecinct(r.num)
    ensures places == [] ==> r == NotFound
  {
    if places == [] then NotFound
    else if places[0].name.None? then Threw
    else if Qualifies(places[0].name.value) then Found(ExtractPrecinctNum(places[0].name.value).value)
    else FirstQualifying(places[1..])
  }

  /** Every place before index k has a name that does not qualify. */
  ghost predicate SkippedBefore(places: seq<Place>, k: int)
    requires 0 <= k <= |places|
  {
    forall j :: 0 <= j < k ==> places[j].name.Some? && !Qualifies(places[j].name.value)
  }

  /**
   * After a run of non-qualifying places, the scan's outcome is decided by
   * the next place: it throws on a nameless one and stops at a qualifying one.
   */
  lemma {:induction false} ScanStopsAtFirst(places: seq<Place>, k: nat)
    requires k < |places| && SkippedBefore(places, k)
    ensures places[k].name.None? ==> FirstQualifying(places) == Threw
    ensures places[k].name.Some? && Qualifies(places[k].name.value) ==>
      FirstQualifying(places) == Found(ExtractPrecinctNum(places[k].name.value).value)
    ensures FirstQualifying(places) == FirstQualifying(places[k..])
  {
    if k > 0 {
      var rest := places[1..];
      assert forall j :: 0 <= j < k - 1 ==> rest[j] == places[j + 1];
      ScanStopsAtFirst(rest, k - 1);
      assert rest[k - 1..] == places[k..];
    }
  }

  /** The scan finds nothing exactly when every place is named and none qualifies. */
  lemma {:induction false} NotFoundMeansNoneQualifies(places: seq<Place>)
    ensures FirstQualifying(places) == NotFound <==> SkippedBefore(places, |places|)
  {
    if places != [] {
      var rest := places[1..];
      NotFoundMeansNoneQualifies(rest);
      assert forall j :: 0 <= j < |rest| ==> rest[j] == places[j + 1];
      if SkippedBefore(rest, |rest|) && places[0].name.Some? && !Qualifies(places[0].name.value) {
        forall j | 0 <= j < |places|
          ensures places[j].name.Some? && !Qualifies(places[j].name.value)
        {
          if j > 0 {
            assert places[j] == rest[j - 1];
          }
        }
      }
    }
  }

  /** The `for…of` loop over the results with its early return. */
  method FirstQualifyingPlace(places: seq<Place>) returns (r: Scan)
    ensures r == FirstQualifying(places)
  {
    var i := 0;
    while i < |places|
      invariant 0 <= i <= |places|
      invariant FirstQualifying(places) == FirstQualifying(places[i..])
    {
      var place := places[i];
      if place.name.None? {
        return Threw;
      }
      var num := ExtractPrecinctNum(place.name.value);
      if num.Some? && IsKnownPrecinct(num.value) {
        return Found(num.value);
      }
      assert places[i..][1..] == places[i + 1..];
      i := i + 1;
    }
    return NotFound;
  }

  /** Whether the answer is usable: HTTP success, status "OK" and a non-empty result list. */
  predicate Usable(resp: PlacesResponse) {
    resp.Payload? && resp.status == "OK" && resp.results.Some? && |resp.results.value| > 0
  }

  /** The precinct the Places client reports for an answer (null on every failure). */
  function NearbyPrecinct(resp: PlacesResponse): (r: Option<int>)
    ensures r.Some? ==> IsKnownPrecinct(r.value)
    ensures !Usable(resp) ==> r == None
  {
    if !Usable(resp) then None
    else
      match FirstQualifying(resp.results.value)
      case Found(n) => Some(n)
      case _ => None
  }

  /**
   * The Places client: a failed fetch, a non-"OK" status, a missing or
   * empty result list and a throwing scan all give null.
   */
  method FindNearbyPrecinct(resp: PlacesResponse) returns (num: Option<int>)
    ensures num == NearbyPrecinct(resp)
    ensures num.Some? ==> IsKnownPrecinct(num.value)
  {
    if resp.NotOk? || resp.FetchThrew? {
      return None;
    }
    if resp.status != "OK" || resp.results.None? || |resp.results.value| == 0 {
      return None;
    }
    var scan := FirstQualifyingPlace(resp.results.value);
    if scan.Found? {
      return Some(scan.num);
    }
    return None;
  }

  /** The JSON body the route answers with. */
  datatype ReplyBody = ErrorBody(error: string) | PrecinctBody(precinctNum: Option<int>)

  datatype Reply = Reply(status: int, body: ReplyBody)

  /** A query parameter JavaScript treats as absent: missing or empty. */
  predicate Blank(param: Option<string>) {
    param.None? || param.value == ""
  }

  /**
   * The route handler: a request without `lat` or `lng` is refused with 400;
   * otherwise the reply carries the first qualifying place's precinct or null.
   */
  method HandleNearbyRequest(lat: Option<string>, lng: Option<string>, resp: PlacesResponse)
    returns (reply: Reply)
    ensures Blank(lat) || Blank(lng) ==> reply == Reply(400, ErrorBody("Missing lat or lng"))
    ensures !Blank(lat) && !Blank(lng) ==> reply == Reply(200, PrecinctBody(NearbyPrecinct(resp)))
    ensures reply.body.PrecinctBody? && reply.body.precinctNum.Some? ==>
      IsKnownPrecinct(reply.body.precinctNum.value)
  {
    if Blank(lat) || Blank(lng) {
      return Reply(400, ErrorBody("Missing lat or lng"));
    }
    var num := FindNearbyPrecinct(resp);
    return Reply(200, PrecinctBody(num));
  }

  /** What the browser's call to the route produced. */
  datatype RouteCall = Answered(reply: Reply) | CallFailed

  /** `response.ok`: a 2xx status. */
  predicate Ok(status: int) {
    200 <= status < 300
  }

  /** The browser-side hint: a failed call, a non-2xx reply, a null or a 0 number give null. */
  function HintFromRoute(call: RouteCall): (r: Option<int>)
    ensures r.Some? ==> r.value != 0
    ensures r.Some? ==> call.Answered? && Ok(call.reply.status) && call.reply.body == PrecinctBody(r)
  {
    if call.CallFailed? || !Ok(call.reply.status) then None
    else
      match call.reply.body
      case PrecinctBody(Some(n)) => if n != 0 then Some(n) else None
      case _ => None
  }

  /** 0 is not a precinct number. */
  lemma ZeroIsNoPrecinct()
    ensures !IsKnownPrecinct(0)
  {
  }

  /**
   * Through the route, the browser's hint is exactly the Places client's
   * answer, and a refused request gives no hint.
   */
  lemma HintThroughRoute(resp: PlacesResponse)
    ensures HintFromRoute(Answered(Reply(400, ErrorBody("Missing lat or lng")))) == None
    ensures HintFromRoute(Answered(Reply(200, PrecinctBody(NearbyPrecinct(resp))))) == NearbyPrecinct(resp)
  {
    ZeroIsNoPrecinct();
  }
}
