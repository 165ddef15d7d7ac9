/** The route service of src/services/route.service.ts: coordinate validation, profile lookup,
    the OSRM request line, decoding of an OSRM route and the mapping of failures to messages.
    The HTTP call itself is a `Fetch` parameter: the outcome of requesting a URL. */
module RouteService {
  import opened Wrappers
  import opened Types
  import opened Constants
  import opened JsString

  /** `validateCoordinates(point)` (lines 6-11): latitude in [-90, 90] and longitude in
      [-180, 180], bounds included. */
  predicate ValidCoordinates(p: GeoPoint)
  {
    -90.0 <= p.lat <= 90.0 && -180.0 <= p.lng <= 180.0
  }

  /** JavaScript's conversion of a number to text (`${x}`). */
  type Show = real -> string

  /** `formatCoordinates(point)` (lines 13-15): longitude, a comma, latitude. */
  function FormatCoordinates(p: GeoPoint, show: Show): string
  {
    show(p.lng) + "," + show(p.lat)
  }

  /** The formatted pair splits back at its comma into longitude first and latitude second
      (number texts hold no comma). */
  lemma FormatCoordinatesOrder(p: GeoPoint, show: Show)
    requires ',' !in show(p.lng) && ',' !in show(p.lat)
    ensures Split(FormatCoordinates(p, show), ',') == [show(p.lng), show(p.lat)]
  {
    var parts := [show(p.lng), show(p.lat)];
    assert Join(parts, ',') == FormatCoordinates(p, show) by {
      assert parts[1..] == [show(p.lat)];
    }
    SplitJoin(parts, ',');
  }

  /** The URL requested at line 59 (the query parameters are fixed and not modelled). */
  function RequestUrl(osrmProfile: string, start: GeoPoint, end: GeoPoint, show: Show): string
  {
    OSRM_BASE_URL + "/" + osrmProfile + "/" + FormatCoordinates(start, show) + ";" + FormatCoordinates(end, show)
  }

  // ---------------------------------------------------------------------------
  // parseOSRMResponse
  // ---------------------------------------------------------------------------

  /** `coordinates.map(coord => ({ lng: coord[0], lat: coord[1] }))`: a GeoJSON position holds
      the longitude first. */
  function RoutePoints(coords: seq<Position2>): (r: seq<GeoPoint>)
    ensures |r| == |coords|
  {
    seq(|coords|, k requires 0 <= k < |coords| => GeoPoint(coords[k][1], coords[k][0]))
  }

  /** The GeoJSON positions `[lng, lat]` of some points. */
  function Positions(points: seq<GeoPoint>): (r: seq<Position2>)
    ensures |r| == |points|
  {
    seq(|points|, k requires 0 <= k < |points| => [points[k].lng, points[k].lat])
  }

  /** Decoding undoes encoding, and encoding undoes decoding on two-number positions. */
  lemma RoutePointsRoundTrip(points: seq<GeoPoint>, coords: seq<Position2>)
    ensures RoutePoints(Positions(points)) == points
    ensures (forall k | 0 <= k < |coords| :: |coords[k]| == 2) ==> Positions(RoutePoints(coords)) == coords
  {
    if forall k | 0 <= k < |coords| :: |coords[k]| == 2 {
      var back := Positions(RoutePoints(coords));
      forall k | 0 <= k < |coords|
        ensures back[k] == coords[k]
      {
        assert coords[k] == [coords[k][0], coords[k][1]];
      }
    }
  }

  /** The non-empty instructions of the steps of one leg, in order. */
  function LegInstructions(steps: seq<OsrmStep>): seq<string>
  {
    if steps == [] then []
    else
      var init := LegInstructions(steps[..|steps| - 1]);
      var s := steps[|steps| - 1].instruction;
      if s != "" then init + [s] else init
  }

  /** The non-empty instructions of all legs, leg by leg. */
  function Instructions(legs: seq<OsrmLeg>): seq<string>
  {
    if legs == [] then [] else Instructions(legs[..|legs| - 1]) + LegInstructions(legs[|legs| - 1].steps)
  }

  /** The response decoded from an OSRM route. */
  function ParsedRoute(route: OsrmRoute, profile: string): RouteResponse
  {
    RouteResponse(RoutePoints(route.coordinates), route.distance, route.duration, profile, Instructions(route.legs))
  }

  /** `parseOSRMResponse(osrmResponse, profile)` (lines 17-40). */
  method ParseOsrmResponse(route: OsrmRoute, profile: string) returns (r: RouteResponse)
    ensures r == ParsedRoute(route, profile)
  {
    var points := RoutePoints(route.coordinates);
    var instructions: seq<string> := [];
    var legs := route.legs;
    for i := 0 to |legs|
      invariant instructions == Instructions(legs[..i])
    {
      var steps := legs[i].steps;
      for j := 0 to |steps|
        invariant instructions == Instructions(legs[..i]) + LegInstructions(steps[..j])
      {
        assert steps[..j + 1][..j] == steps[..j];
        if steps[j].instruction != "" {
          instructions := instructions + [steps[j].instruction];
        }
      }
      assert steps[..|steps|] == steps;
      assert legs[..i + 1][..i] == legs[..i];
    }
    assert legs[..|legs|] == legs;
    r := RouteResponse(points, route.distance, route.duration, profile, instructions);
  }

  /** An instruction of a leg is exactly a non-empty instruction of one of its steps. */
  lemma {:induction false} LegInstructionsMembers(steps: seq<OsrmStep>)
    ensures forall s :: s in LegInstructions(steps) <==>
      s != "" && exists j | 0 <= j < |steps| :: steps[j].instruction == s
  {
    if steps != [] {
      var init := steps[..|steps| - 1];
      LegInstructionsMembers(init);
      assert forall j | 0 <= j < |init| :: init[j] == steps[j];
    }
  }

  /** An instruction of the response is exactly a non-empty instruction of some step of some
      leg. */
  lemma {:induction false} InstructionsMembers(legs: seq<OsrmLeg>)
    ensures forall s :: s in Instructions(legs) <==>
      s != "" && exists i, j | 0 <= i < |legs| && 0 <= j < |legs[i].steps| :: legs[i].steps[j].instruction == s
  {
    if legs != [] {
      var init := legs[..|legs| - 1];
      var last := legs[|legs| - 1];
      InstructionsMembers(init);
      LegInstructionsMembers(last.steps);
      assert forall i | 0 <= i < |init| :: init[i] == legs[i];
      forall s | s != "" && exists i, j | 0 <= i < |legs| && 0 <= j < |legs[i].steps| :: legs[i].steps[j].instruction == s
        ensures s in Instructions(legs)
      {
        var i, j :| 0 <= i < |legs| && 0 <= j < |legs[i].steps| && legs[i].steps[j].instruction == s;
        if i == |legs| - 1 {
          assert s in LegInstructions(last.steps);
        } else {
          assert init[i].steps[j].instruction == s;
        }
      }
    }
  }

  /** The instructions of consecutive legs follow one another: leg-then-step order. */
  lemma {:induction false} InstructionsAppend(xs: seq<OsrmLeg>, ys: seq<OsrmLeg>)
    ensures Instructions(xs + ys) == Instructions(xs) + Instructions(ys)
    decreases |ys|
  {
    if ys == [] {
      assert xs + ys == xs;
    } else {
      var init, last := ys[..|ys| - 1], LegInstructions(ys[|ys| - 1].steps);
      var whole := xs + ys;
      assert Instructions(whole) == Instructions(xs + init) + last by {
        assert whole[..|whole| - 1] == xs + init && whole[|whole| - 1] == ys[|ys| - 1];
      }
      InstructionsAppend(xs, init);
      assert Instructions(ys) == Instructions(init) + last;
      assert (Instructions(xs) + Instructions(init)) + last == Instructions(xs) + (Instructions(init) + last);
    }
  }

  // ---------------------------------------------------------------------------
  // getRoute
  // ---------------------------------------------------------------------------

  /** What requesting a URL can give: a response (a missing `routes` field reads as no routes),
      an Axios error with the HTTP status of its response if one arrived, or any other error. */
  datatype FetchOutcome = Fetched(routes: seq<OsrmRoute>) | HttpFailure(status: Option<int>) | OtherFailure

  type Fetch = string -> FetchOutcome

  /** `request.profile || 'driving'`: a missing or empty profile is 'driving'. */
  function ResolveProfile(profile: Option<string>): string
  {
    if profile.Some? && profile.value != "" then profile.value else "driving"
  }

  /** The message the `catch` block (lines 75-88) rethrows: 400 and 404 responses of an Axios
      error get their own messages, everything else is an internal error. */
  function CaughtError(isAxiosError: bool, status: Option<int>): string
  {
    if isAxiosError && status == Some(400) then INVALID_COORDINATES
    else if isAxiosError && status == Some(404) then ROUTE_NOT_FOUND
    else if isAxiosError && status.Some? && status.value >= 500 then INTERNAL_ERROR
    else INTERNAL_ERROR
  }

  /** The `try` block of lines 57-88 given the request's outcome. The error thrown at line 71
      for an empty route list is not an Axios error, so the `catch` turns it into an internal
      error. */
  function Respond(outcome: FetchOutcome, profile: string): Result<RouteResponse, string>
  {
    match outcome
    case Fetched(routes) =>
      if |routes| == 0 then Failure(CaughtError(false, None)) else Success(ParsedRoute(routes[0], profile))
    case HttpFailure(status) => Failure(CaughtError(true, status))
    case OtherFailure => Failure(CaughtError(false, None))
  }

  /** The as-written mapping reports a response without routes as an internal error rather than
      with the 'Route not found' message thrown for it at line 71. */
  lemma EmptyRoutesMisreported(profile: string)
    ensures Respond(Fetched([]), profile) == Failure("Internal server error")
    ensures Respond(Fetched([]), profile) != Failure("Route not found")
  {
  }

  /** The evidently intended mapping: the 'Route not found' error of line 71 reaches the caller. */
  function RespondIntended(outcome: FetchOutcome, profile: string): Result<RouteResponse, string>
  {
    match outcome
    case Fetched(routes) =>
      if |routes| == 0 then Failure(ROUTE_NOT_FOUND) else Success(ParsedRoute(routes[0], profile))
    case HttpFailure(status) => Failure(CaughtError(true, status))
    case OtherFailure => Failure(CaughtError(false, None))
  }

  /** With the intended mapping 'Route not found' is reported exactly when OSRM found no route
      (an empty route list or a 404 response), and every other outcome is mapped as before. */
  lemma RespondIntendedOutcomes(outcome: FetchOutcome, profile: string)
    ensures RespondIntended(outcome, profile) == Failure("Route not found") <==>
      outcome == Fetched([]) || outcome == HttpFailure(Some(404))
    ensures outcome != Fetched([]) ==> RespondIntended(outcome, profile) == Respond(outcome, profile)
  {
  }

  /** The checks of lines 43-54 ahead of the request: the URL to request and the profile name,
      or the error that rejects the request. */
  function Prepare(request: RouteRequest, show: Show): Result<(string, string), string>
  {
    if !ValidCoordinates(request.startPoint) || !ValidCoordinates(request.endPoint) then
      Failure(INVALID_COORDINATES)
    else
      var profile := ResolveProfile(request.profile);
      if profile !in OSRM_PROFILES then Failure(INVALID_ROUTE_TYPE)
      else Success((RequestUrl(OSRM_PROFILES[profile], request.startPoint, request.endPoint, show), profile))
  }

  /** `getRoute(request)` (lines 42-89), with the `catch` mapping as written (`Respond`). */
  function GetRoute(request: RouteRequest, fetch: Fetch, show: Show): Result<RouteResponse, string>
  {
    match Prepare(request, show)
    case Failure(e) => Failure(e)
    case Success((url, profile)) => Respond(fetch(url), profile)
  }

  /** `getRoute` with the error of an empty route list reported as evidently intended. */
  function GetRouteIntended(request: RouteRequest, fetch: Fetch, show: Show): Result<RouteResponse, string>
  {
    match Prepare(request, show)
    case Failure(e) => Failure(e)
    case Success((url, profile)) => RespondIntended(fetch(url), profile)
  }

  /** The corrected `getRoute` differs from the one as written exactly when the request passes
      the checks and OSRM answers with no route: that answer is reported as 'Internal server
      error' as written and as 'Route not found' once corrected. */
  lemma GetRouteIntendedDiffers(request: RouteRequest, fetch: Fetch, show: Show)
    ensures GetRouteIntended(request, fetch, show) != GetRoute(request, fetch, show) <==>
      Prepare(request, show).Success? && fetch(Prepare(request, show).value.0) == Fetched([])
    ensures Prepare(request, show).Success? && fetch(Prepare(request, show).value.0) == Fetched([]) ==>
      && GetRoute(request, fetch, show) == Failure("Internal server error")
      && GetRouteIntended(request, fetch, show) == Failure("Route not found")
  {
    if Prepare(request, show).Success? {
      var (url, profile) := Prepare(request, show).value;
      RespondIntendedOutcomes(fetch(url), profile);
    }
  }

  /** The error table: a response with routes succeeds with the first route decoded under the
      requested profile name; an Axios error with status 400 or 404 gets its own message; every
      other failure, an empty route list included, is an internal error. */
  lemma RespondOutcomes(outcome: FetchOutcome, profile: string)
    ensures Respond(outcome, profile).Success? <==> outcome.Fetched? && |outcome.routes| > 0
    ensures outcome.Fetched? && |outcome.routes| > 0 ==>
      Respond(outcome, profile) == Success(ParsedRoute(outcome.routes[0], profile))
    ensures outcome == HttpFailure(Some(400)) ==> Respond(outcome, profile) == Failure("Invalid coordinates provided")
    ensures outcome == HttpFailure(Some(404)) ==> Respond(outcome, profile) == Failure("Route not found")
    ensures outcome.HttpFailure? && outcome.status != Some(400) && outcome.status != Some(404) ==>
      Respond(outcome, profile) == Failure("Internal server error")
    ensures outcome == OtherFailure || outcome == Fetched([]) ==>
      Respond(outcome, profile) == Failure("Internal server error")
  {
  }

  /** An endpoint out of range fails with 'Invalid coordinates provided' whatever the network
      would answer, so no request matters. */
  lemma GetRouteRejectsInvalid(request: RouteRequest, fetch: Fetch, other: Fetch, show: Show)
    requires !ValidCoordinates(request.startPoint) || !ValidCoordinates(request.endPoint)
    ensures GetRoute(request, fetch, show) == Failure("Invalid coordinates provided")
    ensures GetRoute(request, fetch, show) == GetRoute(request, other, show)
  {
  }

  /** With valid endpoints: the profile defaults to 'driving' and is looked up in the OSRM
      profile table (walking is 'foot', bus is 'driving'); an unknown profile fails with
      'Invalid route type provided'; otherwise exactly one URL is requested, built from the
      OSRM profile and both endpoints, and a success reports the requested profile name. */
  lemma GetRouteRequest(request: RouteRequest, fetch: Fetch, show: Show)
    requires ValidCoordinates(request.startPoint) && ValidCoordinates(request.endPoint)
    ensures request.profile.None? ==> ResolveProfile(request.profile) == "driving"
    ensures OSRM_PROFILES["walking"] == "foot" && OSRM_PROFILES["bus"] == "driving"
    ensures OSRM_PROFILES["driving"] == "driving" && OSRM_PROFILES["cycling"] == "cycling"
    ensures var profile := ResolveProfile(request.profile);
      && (profile !in OSRM_PROFILES ==> GetRoute(request, fetch, show) == Failure("Invalid route type provided"))
      && (profile in OSRM_PROFILES ==>
            var url := RequestUrl(OSRM_PROFILES[profile], request.startPoint, request.endPoint, show);
            && GetRoute(request, fetch, show) == Respond(fetch(url), profile)
            && (GetRoute(request, fetch, show).Success? ==> GetRoute(request, fetch, show).value.profile == profile))
  {
  }

  // ---------------------------------------------------------------------------
  // getMultipleRoutes
  // ---------------------------------------------------------------------------

  /** `Promise.all` over settled results: all values in order, or the first failure. */
  function AllOf(results: seq<Result<RouteResponse, string>>): Result<seq<RouteResponse>, string>
  {
    if results == [] then Success([])
    else match results[0]
      case Failure(e) => Failure(e)
      case Success(r) =>
        match AllOf(results[1..])
        case Failure(e) => Failure(e)
        case Success(rs) => Success([r] + rs)
  }

  /** `getMultipleRoutes(requests)` (lines 91-94). */
  function GetMultipleRoutes(requests: seq<RouteRequest>, fetch: Fetch, show: Show): Result<seq<RouteResponse>, string>
  {
    AllOf(seq(|requests|, k requires 0 <= k < |requests| => GetRoute(requests[k], fetch, show)))
  }

  /** `AllOf` succeeds exactly when every result does, with the values in order; otherwise it
      fails with the error of the first failed result. */
  lemma {:induction false} AllOfMeaning(results: seq<Result<RouteResponse, string>>)
    ensures AllOf(results).Success? <==> forall k | 0 <= k < |results| :: results[k].Success?
    ensures AllOf(results).Success? ==>
      && |AllOf(results).value| == |results|
      && (forall k | 0 <= k < |results| :: results[k] == Success(AllOf(results).value[k]))
    ensures AllOf(results).Failure? ==>
      exists k | 0 <= k < |results| ::
        results[k] == Failure(AllOf(results).error) && forall j | 0 <= j < k :: results[j].Success?
  {
    if results != [] {
      var rest := results[1..];
      AllOfMeaning(rest);
      assert forall k | 1 <= k < |results| :: results[k] == rest[k - 1];
      if results[0].Success? && AllOf(rest).Failure? {
        var k :| 0 <= k < |rest| && rest[k] == Failure(AllOf(rest).error) && forall j | 0 <= j < k :: rest[j].Success?;
        assert results[k + 1] == Failure(AllOf(results).error);
      }
    }
  }

  /** One route per request, in request order, when every request succeeds; otherwise the
      error of the first request (in request order) that fails. */
  lemma MultipleRoutesOrder(requests: seq<RouteRequest>, fetch: Fetch, show: Show)
    ensures var r := GetMultipleRoutes(requests, fetch, show);
      && (r.Success? <==> forall k | 0 <= k < |requests| :: GetRoute(requests[k], fetch, show).Success?)
      && (r.Success? ==>
            && |r.value| == |requests|
            && (forall k | 0 <= k < |requests| :: GetRoute(requests[k], fetch, show) == Success(r.value[k])))
      && (r.Failure? ==>
            exists k | 0 <= k < |requests| ::
              && GetRoute(requests[k], fetch, show) == Failure(r.error)
              && forall j | 0 <= j < k :: GetRoute(requests[j], fetch, show).Success?)
  {
    var results := seq(|requests|, k requires 0 <= k < |requests| => GetRoute(requests[k], fetch, show));
    AllOfMeaning(results);
    assert forall k | 0 <= k < |requests| :: results[k] == GetRoute(requests[k], fetch, show);
    if AllOf(results).Failure? {
      var k :| 0 <= k < |results| && results[k] == Failure(AllOf(results).error) && forall j | 0 <= j < k :: results[j].Success?;
      assert GetRoute(requests[k], fetch, show) == Failure(AllOf(results).error);
    }
  }
}
