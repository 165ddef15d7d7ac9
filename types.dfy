/** The records of src/types/index.ts (and the row shape of the geo_locations table). */
module Types {
  import opened Wrappers

  datatype GeoPoint = GeoPoint(lat: real, lng: real)

  /** One GPS trace point; `id` is the anonymised track id. */
  datatype GeoLocation = GeoLocation(id: string, lat: real, lng: real, alt: real, spd: real, azm: real)

  /** `{ lat: loc.lat, lng: loc.lng }` */
  function Position(loc: GeoLocation): GeoPoint { GeoPoint(loc.lat, loc.lng) }

  /** A great-circle distance; the haversine formulas themselves are not modelled. */
  type Distance = (GeoPoint, GeoPoint) -> real

  /** What the code and its tests rely on about a haversine distance. */
  ghost predicate IsGreatCircle(d: Distance)
  {
    && (forall p, q :: d(p, q) >= 0.0)
    && (forall p :: d(p, p) == 0.0)
  }

  /** A row of the geo_locations table: a serial key and the CSV columns. */
  datatype DbRow = DbRow(rowId: int, randomizedId: string, lat: real, lng: real, alt: real, spd: real, azm: real)

  /** The row mapping repeated by the services (`loc => ({ id: loc.randomizedId, lat: loc.lat, ... })`):
      `randomizedId` becomes `id`; the numbers are copied. */
  function LocationsOf(rows: seq<DbRow>): (r: seq<GeoLocation>)
    ensures |r| == |rows|
  {
    if rows == [] then []
    else
      var row := rows[|rows| - 1];
      LocationsOf(rows[..|rows| - 1]) + [GeoLocation(row.randomizedId, row.lat, row.lng, row.alt, row.spd, row.azm)]
  }

  /** Location k is row k with its randomised id as track id and the same coordinates,
      altitude, speed and azimuth. */
  lemma {:induction false} LocationsOfRows(rows: seq<DbRow>)
    ensures forall k | 0 <= k < |rows| ::
      var loc, row := LocationsOf(rows)[k], rows[k];
      && loc.id == row.randomizedId
      && loc.lat == row.lat && loc.lng == row.lng
      && loc.alt == row.alt && loc.spd == row.spd && loc.azm == row.azm
  {
    if rows != [] {
      LocationsOfRows(rows[..|rows| - 1]);
    }
  }

  /** Mapping a concatenation of row lists maps each part. */
  lemma {:induction false} LocationsOfAppend(xs: seq<DbRow>, ys: seq<DbRow>)
    ensures LocationsOf(xs + ys) == LocationsOf(xs) + LocationsOf(ys)
    decreases |ys|
  {
    if ys == [] {
      assert xs + ys == xs;
    } else {
      var init := ys[..|ys| - 1];
      LocationsOfAppend(xs, init);
      var whole := xs + ys;
      assert whole[..|whole| - 1] == xs + init && whole[|whole| - 1] == ys[|ys| - 1];
    }
  }

  datatype ClusteredPoint = ClusteredPoint(center: GeoPoint, points: seq<GeoLocation>, radius: real, intensity: real, count: int)

  datatype HeatmapPoint = HeatmapPoint(lat: real, lng: real, radius: real, intensity: real, count: int)

  datatype HeatmapConfig = HeatmapConfig(gridSize: real, radius: real, intensityThreshold: real, maxPoints: int)

  /** `Partial<HeatmapConfig>`: every field may be missing. */
  datatype PartialHeatmapConfig = PartialHeatmapConfig(
    gridSize: Option<real>, radius: Option<real>, intensityThreshold: Option<real>, maxPoints: Option<int>)

  datatype Bounds = Bounds(north: real, south: real, east: real, west: real)

  datatype HeatmapRequest = HeatmapRequest(bounds: Option<Bounds>, config: Option<PartialHeatmapConfig>, trackIds: Option<seq<string>>)

  datatype GeoRoute = GeoRoute(points: seq<GeoPoint>, distance: real, duration: real)

  datatype GeoTrack = GeoTrack(id: string, route: Option<GeoRoute>, totalDistance: Option<real>, pointCount: int)

  datatype GeoTrackOptions = GeoTrackOptions(includeRoute: bool, includeDistance: bool)

  datatype GeoTrackStats = GeoTrackStats(totalTracks: int, totalPoints: int, averagePointsPerTrack: real)

  datatype DriverStatus = Available | Busy | Offline

  datatype DriverLocation = DriverLocation(id: string, lat: real, lng: real, timestamp: int, status: DriverStatus)

  datatype DemandPoint = DemandPoint(lat: real, lng: real, intensity: real, radius: real, driverCount: int, score: real)

  datatype DriverRecommendation = DriverRecommendation(
    point: DemandPoint, distance: real, estimatedTime: real, competition: int, demand: real, finalScore: real)

  /** `profile?: RouteProfile`, kept as text so that an unknown profile can be represented. */
  datatype RouteRequest = RouteRequest(startPoint: GeoPoint, endPoint: GeoPoint, profile: Option<string>)

  datatype RouteResponse = RouteResponse(route: seq<GeoPoint>, distance: real, duration: real, profile: string, instructions: seq<string>)

  /** A GeoJSON position: two or more numbers, longitude first (section 3.1.1 of RFC 7946). */
  type Position2 = c: seq<real> | |c| >= 2 witness [0.0, 0.0]

  datatype OsrmStep = OsrmStep(instruction: string)

  datatype OsrmLeg = OsrmLeg(steps: seq<OsrmStep>)

  datatype OsrmRoute = OsrmRoute(coordinates: seq<Position2>, distance: real, duration: real, legs: seq<OsrmLeg>)

  datatype CsvRow = CsvRow(randomizedId: string, lat: string, lng: string, alt: string, spd: string, azm: string)
}
