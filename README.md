# Ride-demand heatmap and driver recommendation core, in Dafny

This project models the computational core of a ride-hailing demand service. The service
stores GPS trace points (rows of the `geo_locations` table: a randomised track id, latitude,
longitude, altitude, speed and azimuth). From those points it:

- groups them into tracks and reports each track's route, path length and statistics;
- clusters the points greedily around seed points, scores each cluster, and turns the
  clusters into a heatmap of demand;
- ranks the heatmap points for a driver by demand, competing drivers and distance;
- asks an OSRM routing server for routes and decodes its answers;
- imports trace points from a CSV file.

Every Dafny module follows one source file:

| module | source file |
|---|---|
| `HeatmapCalculations` | `src/utils/heatmap-calculations.ts` |
| `HeatmapService` | `src/services/heatmap.service.ts` |
| `GeoCalculations` | `src/utils/geo-calculations.ts` |
| `GeoTrackService` | `src/services/geo-track.service.ts` |
| `RouteService` | `src/services/route.service.ts` |
| `DriverService` | `src/services/driver.service.ts` |
| `CsvParser` | `src/utils/csv-parser.ts` |
| `MigrationService` | `src/services/migration.service.ts` |
| `Types`, `Constants` | `src/types/index.ts`, `src/constants/index.ts` |
| `Numbers`, `JsString` | `Math.*`, `Array.prototype.reduce` and `String.prototype.split/join/trim` |

The loops of the source are modelled as imperative methods proved equal to recursive
specification functions. The properties the service promises are proved as lemmas about those
functions:

- the clustering is a partition, and members join the seed of their cluster rather than a chain;
- intensities lie in (0, 1], and radii are at least 50 metres;
- the heatmap holds at most `maxPoints` points, each reaching the intensity threshold;
- recommendations are stably sorted by score, with at most 10 returned;
- `getRoute` maps each kind of failure to the error it reports;
- CSV lines round-trip, and the header line is skipped.

The object that receives the imported batch is a class whose method appends to its state.

Distances are parameters of type `Types.Distance`, because the haversine formula is trigonometry.

- `metres` / `d` stands for the `calculateDistance` of `src/utils/heatmap-calculations.ts`, which works in metres.
- `km` stands for the one in `src/utils/geo-calculations.ts`, which works in kilometres.
- The ghost predicate `IsGreatCircle` states what the code relies on about them: a distance is
  never negative, and it is zero between a point and itself.

Database queries, the Redis store and HTTP calls are not modelled. Each operation receives the
rows, drivers or fetch function that the query or call would have produced. The recommender
receives the location rows and builds its own demand heatmap from them.

### Behaviour of the code that a reader may not expect (the model follows the code)

- The minimum cluster radius is the constant `CLUSTERING_DISTANCE` (50), not `config.radius`.
  `config.radius` is resolved but never used by `createHeatmapGrid`
  (`src/utils/heatmap-calculations.ts:59,84`).
- A singleton cluster keeps its `count` of 1 and its centre. A multi-member cluster gets its
  member count.
- The fallback travel time is `Math.round(distance / 50 * 60)`, computed on a distance in
  kilometres. That is minutes at 50 km/h, not seconds (`src/services/driver.service.ts:117`),
  while a found route reports OSRM's duration in seconds.
- `getDemandRecommendations` compares kilometre distances with the metre-valued `maxDistance`
  (default 5000) and `point.radius` (`src/services/driver.service.ts:65-73`).
- No input is validated before clustering. A negative `maxPoints` is passed to `slice`, so it
  counts from the back. Unordered bounds simply select nothing.
- Configuration fields are resolved with `||`: an explicit `0` is replaced by the default. The
  clustering distance of `getClusteredPoints`, by contrast, is a default parameter, so an
  explicit `0` is kept.

## Model

| member | source | states |
|---|---|---|
| `HeatmapCalculations.ClusterPoints` | src/utils/heatmap-calculations.ts:19-53 | the nested loops with the `processed` set build exactly the clusters of the greedy seed specification `Clusters` |
| `HeatmapCalculations.GrowCluster` | src/utils/heatmap-calculations.ts:34-46 | the inner loop adds, in order, every later unprocessed point within `distance` of seed i; it marks exactly those processed, and the points left pending are exactly the far ones |
| `HeatmapCalculations.CloseFarMembers` | src/utils/heatmap-calculations.ts:42-45 | every index that joins a cluster is near its seed, and every index left out is not; both come from the pending list |
| `HeatmapCalculations.CloseFarIncreasing` | src/utils/heatmap-calculations.ts:34-46 | scanning j upwards keeps members and leftovers in increasing input order |
| `HeatmapCalculations.CloseFarSplit` | src/utils/heatmap-calculations.ts:42-45 | joined and left-out indices together are exactly the pending indices, with multiplicity |
| `HeatmapCalculations.Greedy` | src/utils/heatmap-calculations.ts:23-50 | every group of the greedy clustering is a non-empty list of input indices |
| `HeatmapCalculations.GreedyPartition` | src/utils/heatmap-calculations.ts:23-50 | the groups partition the pending indices, and there are no more groups than indices |
| `HeatmapCalculations.GreedyGroups` | src/utils/heatmap-calculations.ts:26-46 | each group is increasing, starts with its seed, and every other member is near that seed |
| `HeatmapCalculations.GreedyMembers` | src/utils/heatmap-calculations.ts:23-50 | every member of every group is one of the pending indices |
| `HeatmapCalculations.AfterFirstGroup` | src/utils/heatmap-calculations.ts:34-48 | members of later groups lie after the first seed and are not near it |
| `HeatmapCalculations.GreedySeedOrder` | src/utils/heatmap-calculations.ts:23-24 | seeds appear in increasing input order |
| `HeatmapCalculations.GreedyNoChaining` | src/utils/heatmap-calculations.ts:34-46 | no member of a later group is near an earlier seed: a point joins the first seed it is near, and clusters never grow transitively |
| `HeatmapCalculations.ClusterIndices` | src/utils/heatmap-calculations.ts:19-53 | the index groups of `clusterPoints` are non-empty and index the input |
| `HeatmapCalculations.ClusterPartition` | src/utils/heatmap-calculations.ts:19-53 | each input point is a member of exactly one cluster; cluster sizes add up to the input size; there are at most as many clusters as points |
| `HeatmapCalculations.ClusterShape` | src/utils/heatmap-calculations.ts:26-49 | each cluster is centred on its seed, its first member, with count 1; every other member is within the threshold of the seed and later in the input; seeds are in input order; a member of a later cluster is farther than the threshold from every earlier seed |
| `HeatmapCalculations.RawClusterFacts` | src/utils/heatmap-calculations.ts:26-32 | a raw cluster has members, count 1 and its first member as centre |
| `HeatmapCalculations.RawClusters` | src/utils/heatmap-calculations.ts:48-49 | one cluster object per group, each with at least one member |
| `HeatmapCalculations.MaxDistance` | src/utils/heatmap-calculations.ts:76-82 | the running maximum starting at 0 is non-negative, bounds the distance from the centre to every member, and is either 0 or the distance of some member |
| `HeatmapCalculations.ClusterProperties` | src/utils/heatmap-calculations.ts:55-94 | scoring keeps the member list of the cluster |
| `HeatmapCalculations.ScoreCluster` | src/utils/heatmap-calculations.ts:64-93 | the two `forEach` accumulation loops (`Totals`, `Farthest`) compute exactly the scored cluster `ClusterProperties` |
| `HeatmapCalculations.Totals` | src/utils/heatmap-calculations.ts:68-71 | the first loop leaves the sum of the members' latitudes and the sum of their longitudes |
| `HeatmapCalculations.Farthest` | src/utils/heatmap-calculations.ts:76-82 | the second loop leaves the largest distance from the centre to a member (`MaxDistance`) |
| `HeatmapCalculations.ScoredSingleton` | src/utils/heatmap-calculations.ts:56-62 | a one-point cluster keeps its centre and count and gets radius 50 and intensity 1 |
| `HeatmapCalculations.ScoredGroup` | src/utils/heatmap-calculations.ts:64-93 | a cluster of n >= 2 points is centred on the mean latitude and mean longitude of its members, inside their bounding box; its count is n; its radius is max(2 × the largest member distance from that centre, 50), so it is at least 50, at least twice every member's distance, and equal to twice some member's distance unless it is 50; its intensity is n/10 capped at 1 |
| `HeatmapCalculations.ScoredBounds` | src/utils/heatmap-calculations.ts:55-94 | a cluster as built by `clusterPoints` scores 0 < intensity <= 1, radius >= 50 and count = number of members; under a great-circle distance every member lies within half the radius of the centre |
| `HeatmapCalculations.ScoreAll` | src/utils/heatmap-calculations.ts:101 | one scored cluster per cluster, in cluster order |
| `HeatmapCalculations.ScoredMembers` | src/utils/heatmap-calculations.ts:101 | scoring keeps the total number of members |
| `HeatmapCalculations.ScoredClusters` | src/utils/heatmap-calculations.ts:100-101 | there are as many scored clusters as clusters |
| `HeatmapCalculations.ScoredClustersBounds` | src/utils/heatmap-calculations.ts:100-101 | every scored cluster keeps its members and has 0 < intensity <= 1, radius >= 50 and count = number of members |
| `HeatmapCalculations.KeepIntense` | src/utils/heatmap-calculations.ts:104 | the intensity filter never lengthens the list |
| `HeatmapCalculations.KeepIntenseMembers` | src/utils/heatmap-calculations.ts:104 | a cluster survives exactly when it is a cluster of the input whose intensity reaches the threshold |
| `HeatmapCalculations.KeepIntenseAppend` | src/utils/heatmap-calculations.ts:104 | the filter keeps cluster order |
| `HeatmapCalculations.SliceTo` | src/utils/heatmap-calculations.ts:105 | `slice(0, end)` returns a prefix: of length `end` when `end` is within range, the whole list when `end` is at least its length, and counting from the back when `end` is negative |
| `HeatmapCalculations.ToHeatmapPoint` | src/utils/heatmap-calculations.ts:106-112 | a heatmap point copies the cluster's centre, radius, intensity and count |
| `HeatmapCalculations.ToHeatmapPoints` | src/utils/heatmap-calculations.ts:106-112 | one heatmap point per selected cluster, in order |
| `HeatmapCalculations.SelectionBounds` | src/utils/heatmap-calculations.ts:103-105 | selection is a prefix of the clusters that reach the threshold; it holds at most `maxPoints` of them when `maxPoints >= 0`, and all of them when `maxPoints` is at least their number |
| `HeatmapCalculations.SelectionMembers` | src/utils/heatmap-calculations.ts:103-105 | every selected cluster is a scored cluster whose intensity reaches the threshold |
| `HeatmapCalculations.SelectedPoints` | src/utils/heatmap-calculations.ts:103-112 | each heatmap point reaches the threshold and inherits 0 < intensity <= 1, radius >= 50 and count >= 1 |
| `HeatmapCalculations.GridSize` | src/utils/heatmap-calculations.ts:96-113 | the grid has at most `maxPoints` points when that is not negative, and never more points than clusters at `gridSize * 1000` metres; this and `GridPoints` state `CreateHeatmapGrid` (lines 96-113) |
| `HeatmapCalculations.GridPoints` | src/utils/heatmap-calculations.ts:96-113 | every grid point reaches the intensity threshold and has 0 < intensity <= 1, radius >= 50 and count >= 1 |
| `HeatmapCalculations.FilterPointsByBounds` | src/utils/heatmap-calculations.ts:115-125 | the bounds filter never lengthens the list |
| `HeatmapCalculations.FilterBoundsMembers` | src/utils/heatmap-calculations.ts:119-124 | a point is kept exactly when it is an input point inside the box |
| `HeatmapCalculations.FilterBoundsAppend` | src/utils/heatmap-calculations.ts:119-124 | the filter keeps input order |
| `HeatmapCalculations.FilterBoundsIdempotent` | src/utils/heatmap-calculations.ts:119-124 | filtering twice by the same box equals filtering once |
| `HeatmapCalculations.Intensities` | src/utils/heatmap-calculations.ts:138 | one intensity per heatmap point, in order |
| `HeatmapCalculations.HeatmapStatsBounds` | src/utils/heatmap-calculations.ts:127-150 | no points give all-zero statistics; otherwise the count is the number of points, the total is the sum of their intensities, the average is that total over the count, max and min are intensities of some point that bound all the others, and min <= average <= max; this states `CalculateHeatmapStats` (lines 127-150) |
| `Numbers.Largest` | src/utils/heatmap-calculations.ts:140 | `Math.max(...xs)` is an element of the list and at least every element |
| `Numbers.Smallest` | src/utils/heatmap-calculations.ts:141 | `Math.min(...xs)` is an element of the list and at most every element |
| `Numbers.MeanBetween` | src/utils/heatmap-calculations.ts:139-146 | the average of a non-empty list lies between its smallest and largest value |
| `Numbers.Round` | src/services/geo-track.service.ts:132 | `Math.round` returns an integer within half a unit of its argument |
| `Types.LocationsOf` | src/services/heatmap.service.ts:49-56 | the row mapping yields one location per row |
| `Types.LocationsOfRows` | src/services/heatmap.service.ts:49-56 | location k has row k's `randomizedId` as id and the same coordinates, altitude, speed and azimuth |
| `Types.LocationsOfAppend` | src/services/heatmap.service.ts:49-56 | the mapping keeps row order |
| `HeatmapService.OrDefault` | src/services/heatmap.service.ts:25-27 | `value \|\| fallback` is either the fallback or a present, non-zero value |
| `HeatmapService.OrDefaultInt` | src/services/heatmap.service.ts:28 | the same for the integer `maxPoints` |
| `HeatmapService.ResolveConfigFields` | src/services/heatmap.service.ts:24-29 | each field is the requested value when present and non-zero, and otherwise its default (0.001, 100, 0.1, 1000) |
| `HeatmapService.ResolveConfigNonZero` | src/services/heatmap.service.ts:24-29 | no resolved field is 0, and a missing configuration resolves like an empty one |
| `HeatmapService.ResolveConfigIdempotent` | src/services/heatmap.service.ts:24-29 | resolving a resolved configuration changes nothing |
| `HeatmapService.TrackHeatmapBounds` | src/services/heatmap.service.ts:61-84 | the heatmap of one track has no more points than the track has rows; it has at most the resolved `maxPoints` when that is positive, and at most 1000 when no configuration is given; every point has an intensity between the threshold and 1, a radius of at least 50 and a positive count; this states `GenerateHeatmapForTrack` (lines 61-84) |
| `HeatmapService.ForBoundsIsGenerate` | src/services/heatmap.service.ts:86-91 | on the same rows, the bounds heatmap equals the track heatmap under the same configuration; this states `GenerateHeatmapForBounds` (lines 86-91), so the bounds of `TrackHeatmapBounds` hold for it |
| `HeatmapService.HeatmapStatsReportBounds` | src/services/heatmap.service.ts:93-115 | the reported configuration is the one the heatmap used; the point count is the length of the heatmap and at most `maxPoints` (1000 by default); the total is the sum of the heatmap's intensities and the average is that total over the count; intensities lie between the threshold and 1 with min <= average <= max; an empty heatmap gives zeros; this states `GetHeatmapStats` (lines 93-115) and the `GenerateHeatmap` it calls (lines 23-59) |
| `HeatmapService.ClusteringDistance` | src/services/heatmap.service.ts:119 | a missing clustering distance is 50, and a given one (even 0) is kept |
| `HeatmapService.ClusteredPointsShape` | src/services/heatmap.service.ts:117-150 | one scored cluster per raw cluster of the rows, in order, each equal to `calculateClusterProperties` of it; members total the number of rows; this states `GetClusteredPoints` (lines 117-150) |
| `HeatmapService.ClusteredPointsBounds` | src/services/heatmap.service.ts:148-149 | every clustered point has members, 0 < intensity <= 1, radius >= 50 and count = number of members |
| `GeoCalculations.CalculateTotalDistance` | src/utils/geo-calculations.ts:19-28 | the loop sums the legs between consecutive points: the result is the path length `PathLength` |
| `GeoCalculations.Legs` | src/utils/geo-calculations.ts:23-25 | a path of n >= 1 points has n - 1 legs, and an empty path has none |
| `GeoCalculations.PathIsSumOfLegs` | src/utils/geo-calculations.ts:19-28 | the total distance is the sum of the leg distances |
| `GeoCalculations.PathLengthSnoc` | src/utils/geo-calculations.ts:23-25 | appending a point adds exactly the last leg |
| `GeoCalculations.PathLengthAppend` | src/utils/geo-calculations.ts:19-28 | joining two paths adds the connecting leg |
| `GeoCalculations.PathLengthNonNegative` | src/utils/geo-calculations.ts:19-28 | under a great-circle distance the total is never negative |
| `GeoCalculations.PathLengthStationary` | src/utils/geo-calculations.ts:19-28 | under a great-circle distance a path that never moves has length 0 |
| `GeoCalculations.CalculateDuration` | src/utils/geo-calculations.ts:30-37 | the "duration" is never negative, and it is 0 for fewer than two locations |
| `GeoCalculations.DurationEndpoints` | src/utils/geo-calculations.ts:33-36 | the "duration" depends only on the first and last location, and not on their order |
| `GeoCalculations.GroupLocationsByTrack` | src/utils/geo-calculations.ts:39-49 | the map's keys are the distinct track ids in first-occurrence order; an id is in the map exactly when it is a key; each group is that id's locations in input order |
| `GeoCalculations.TrackOfAbsent` | src/utils/geo-calculations.ts:39-49 | an id that is not a key has no locations |
| `GeoCalculations.TrackIdsKeys` | src/utils/geo-calculations.ts:39-49 | the keys are distinct; an id is a key exactly when it has a location; there are no more keys than locations, and none only for no locations |
| `GeoCalculations.TrackOfMembers` | src/utils/geo-calculations.ts:42-46 | a group holds exactly the locations with its id, each as often as in the input |
| `GeoCalculations.TrackOfAppend` | src/utils/geo-calculations.ts:42-46 | grouping keeps input order |
| `GeoCalculations.GroupsCoverInput` | src/utils/geo-calculations.ts:39-49 | the group sizes add up to the number of locations |
| `GeoTrackService.AssembleTrack` | src/services/geo-track.service.ts:28-59 | the conditional field assembly builds exactly the track record `BuildTrack` |
| `GeoTrackService.BuildTrackShape` | src/services/geo-track.service.ts:28-59 | a track has its id and point count; a route exactly when requested, with the locations' positions and "duration"; the path length exactly when the distance is requested, on the route if there is one and as `totalDistance` otherwise (otherwise the route distance is 0); under a great-circle distance reported distances are non-negative; this states `BuildTrack` (lines 28-59) |
| `GeoTrackService.GetTrackById` | src/services/geo-track.service.ts:19-62 | null exactly when the query returns no rows; otherwise the track carries the requested id and the row count; this states `TrackById` (lines 19-62) |
| `GeoTrackService.Tracks` | src/services/geo-track.service.ts:81-109 | one track record per key |
| `GeoTrackService.GetAllTracks` | src/services/geo-track.service.ts:64-112 | the loop over the map builds one track record per key, in key order, from that key's group |
| `GeoTrackService.TracksAt` | src/services/geo-track.service.ts:81-109 | track k is built from the k-th key and exactly that key's locations |
| `GeoTrackService.TracksPointCount` | src/services/geo-track.service.ts:81-109 | the point counts of the tracks add up to the sizes of their groups |
| `GeoTrackService.AllTracksIds` | src/services/geo-track.service.ts:64-112 | track k carries the k-th distinct id and counts that id's locations, of which there is at least one; this and `AllTracksCover` state `AllTracks` (lines 64-112) |
| `GeoTrackService.AllTracksCover` | src/services/geo-track.service.ts:64-112 | track ids are distinct, one per distinct row id, and the point counts add up to the number of rows |
| `GeoTrackService.TrackByIdAgrees` | src/services/geo-track.service.ts:19-112 | given the rows of one track, `getTrackById` is null exactly when `getAllTracks` lists no track with that id, and otherwise returns a record `getAllTracks` lists |
| `GeoTrackService.RoundCentsBounds` | src/services/geo-track.service.ts:132 | rounding to two decimals gives a whole number of hundredths, moves a value by at most 0.005, and keeps a value of at least 1 at least 1 |
| `GeoTrackService.MeanPointsBounds` | src/services/geo-track.service.ts:127-132 | with 0 < tracks <= points, the reported average is a whole number of hundredths, within 0.005 of points / tracks, and at least 1 |
| `GeoTrackService.TrackStatsBounds` | src/services/geo-track.service.ts:114-134 | the statistics count the distinct track ids (as many as `getAllTracks` lists) and the rows; no rows give zeros; otherwise 0 < tracks <= points and the average is a whole number of hundredths, within 0.005 of rows / tracks, and at least 1; this states `TrackStats` (lines 114-134) |
| `RouteService.FormatCoordinatesOrder` | src/services/route.service.ts:13-15 | the coordinate text splits at its comma into longitude first, then latitude |
| `RouteService.RoutePoints` | src/services/route.service.ts:19-22 | one route point per GeoJSON position |
| `RouteService.RoutePointsRoundTrip` | src/services/route.service.ts:19-22 | decoding `[lng, lat]` positions undoes encoding, and encoding undoes decoding on two-number positions |
| `RouteService.ParseOsrmResponse` | src/services/route.service.ts:17-40 | the nested `forEach` loops collect exactly the instructions `ParsedRoute` lists; the route, distance, duration and profile are those of the response; `ParsedRoute` (lines 17-40) is the function it is proved equal to |
| `RouteService.LegInstructionsMembers` | src/services/route.service.ts:26-30 | an instruction of a leg is exactly a non-empty instruction of one of its steps |
| `RouteService.InstructionsMembers` | src/services/route.service.ts:25-31 | an instruction of the response is exactly a non-empty instruction of some step of some leg |
| `RouteService.InstructionsAppend` | src/services/route.service.ts:25-31 | instructions come leg by leg, in order |
| `RouteService.RespondOutcomes` | src/services/route.service.ts:57-88 | the `try`/`catch` mapping as written (`Respond`, lines 57-88): a response with routes yields its first route decoded under the requested profile; 400 gives 'Invalid coordinates provided'; 404 gives 'Route not found'; any other failure, including an empty route list, gives 'Internal server error' |
| `RouteService.EmptyRoutesMisreported` | src/services/route.service.ts:70-88 | an empty route list is reported as 'Internal server error', not as 'Route not found' |
| `RouteService.RespondIntendedOutcomes` | src/services/route.service.ts:70-88 | with the corrected error mapping (`RespondIntended`), 'Route not found' is reported exactly for an empty route list or a 404, and every other outcome is unchanged |
| `RouteService.GetRouteIntendedDiffers` | src/services/route.service.ts:70-88 | `getRoute` with the corrected mapping (`GetRouteIntended`) differs from the one as written (`GetRoute`) exactly when the request passes the checks and OSRM answers with no route; that answer is 'Internal server error' as written and 'Route not found' once corrected |
| `RouteService.GetRouteRejectsInvalid` | src/services/route.service.ts:43-45 | an endpoint out of range fails with 'Invalid coordinates provided', whatever the network would answer; `ValidCoordinates` (lines 6-11) is the range test |
| `RouteService.GetRouteRequest` | src/services/route.service.ts:42-74 | with valid endpoints, the profile defaults to 'driving' (`ResolveProfile`, line 47) and maps through the OSRM table (walking to foot, bus to driving); an unknown profile gives 'Invalid route type provided'; otherwise the single URL requested is built from the OSRM profile and both endpoints (`Prepare`, lines 43-55), and `getRoute` (`GetRoute`, lines 42-89) gives exactly the as-written mapping `Respond` of that URL's outcome, so a success reports the requested profile |
| `RouteService.AllOfMeaning` | src/services/route.service.ts:93 | `Promise.all` succeeds exactly when every result does, with the values in order; otherwise it fails with the first failure |
| `RouteService.MultipleRoutesOrder` | src/services/route.service.ts:91-94 | `getMultipleRoutes` (`GetMultipleRoutes`, lines 91-94) over the as-written `getRoute`: one route per request, in request order, when every request succeeds; otherwise it fails with the error of the first request, in request order, that fails |
| `DriverService.DemandHeatmap` | src/services/driver.service.ts:52-59 | the heatmap the recommender requests has at most 50 points, each with intensity between 0.3 and 1 and radius at least 50 |
| `DriverService.EstimatedTimeFallback` | src/services/driver.service.ts:107-119 | a found route gives its duration; otherwise the estimate is the whole number nearest to distance × 1.2, never negative under a great-circle distance; this states `EstimatedTime` (lines 107-119) |
| `DriverService.CompetingDriversMembers` | src/services/driver.service.ts:68-74 | the competitors are exactly the listed drivers that are available and within the point's radius, with multiplicity; there are never more of them than nearby drivers; this states `CompetingDrivers` (lines 68-74) |
| `DriverService.ScoreBounds` | src/services/driver.service.ts:79-80 | for non-negative demand the score lies between a fifth of the demand and the demand; it equals the demand without competition and a fifth of it from four competitors on, and more competition never raises it; this states `FinalScore` (lines 79-80) |
| `DriverService.RecommendFields` | src/services/driver.service.ts:84-98 | a record copies the point's position, intensity and radius; its demand is the intensity; its competition is the competitor count and is also stored as `driverCount`; its score is the penalised demand and is also stored as `score`; it holds the driver's distance and estimated time |
| `DriverService.CandidatesMembers` | src/services/driver.service.ts:64-100 | a record is a candidate exactly when it is the record of a heatmap point within `maxDistance` of the driver; there are no more candidates than points |
| `DriverService.InsertSorted` | src/services/driver.service.ts:103 | inserting into a list sorted by decreasing score keeps it sorted, adds exactly the new record, and the head is the new record exactly when the old head scores less |
| `DriverService.SortByScoreSorted` | src/services/driver.service.ts:103 | the sort orders by decreasing score and is a permutation |
| `DriverService.InsertStable` | src/services/driver.service.ts:103 | an inserted record goes after every record of its score already there |
| `DriverService.SortStable` | src/services/driver.service.ts:103 | the sort is stable: the records of any one score keep their heatmap order |
| `DriverService.RecommendationsShape` | src/services/driver.service.ts:102-104 | the result has min(10, n) records for n candidates; it is sorted by decreasing score and is a prefix of the stable sort; every record is a candidate within `maxDistance`; no candidate left out scores more than the last record; this states `Recommendations` (lines 102-104) |
| `DriverService.CollectCandidates` | src/services/driver.service.ts:64-100 | the loop over the heatmap points collects exactly `Candidates`, the records of the points within the distance limit, in heatmap order |
| `DriverService.GetDemandRecommendations` | src/services/driver.service.ts:51-105 | on the demand heatmap of the rows (the request of lines 52-59), the loop, the sort and the cut yield exactly `Recommendations`, with `maxDistance` defaulting to 5000 |
| `DriverService.DemandRecommendationsBounds` | src/services/driver.service.ts:51-105 | on the demand heatmap there are at most 10 recommendations; each is within the distance limit, has a demand between 0.3 and 1, and has a score between 0.06 and its demand |
| `DriverService.BestDemandPoint` | src/services/driver.service.ts:121-124 | there is no best point exactly when no heatmap point is within `maxDistance`; otherwise the best point is a candidate that no candidate outscores, and it comes first in heatmap order among candidates with its score |
| `DriverService.GetBestDemandPoint` | src/services/driver.service.ts:121-124 | returns element 0 of the recommendations on the demand heatmap of the rows, or none when there are none |
| `JsString.Split` | src/utils/csv-parser.ts:4 | `split` always yields at least one piece |
| `JsString.JoinSplit` | src/utils/csv-parser.ts:4 | no piece of a split contains the separator, and joining the pieces with it gives the text back |
| `JsString.SplitJoin` | src/utils/csv-parser.ts:4 | splitting a join of separator-free pieces gives the pieces back |
| `JsString.SplitPrefix` | src/services/migration.service.ts:12 | splitting text that starts with a separator-free piece puts that piece at the front |
| `JsString.TrimStart` | src/services/migration.service.ts:17 | the result is a suffix of the text; everything removed is white space; the result does not start with white space |
| `JsString.TrimEnd` | src/services/migration.service.ts:17 | the result is a prefix of the text; everything removed is white space; the result does not end with white space |
| `JsString.TrimMeaning` | src/services/migration.service.ts:17 | `trim` removes exactly a white-space prefix and suffix, leaving a piece that neither starts nor ends with white space |
| `JsString.TrimEmpty` | src/services/migration.service.ts:17-18 | trimming gives the empty string exactly when the line is all white space |
| `CsvParser.SplitCount` | src/utils/csv-parser.ts:4-5 | splitting yields one more piece than there are separators |
| `CsvParser.ParseCsvLineCommas` | src/utils/csv-parser.ts:3-15 | a line parses into a row exactly when it holds five commas; this and `ParseCsvLineFields` state `ParseCsvLine` (lines 3-15) |
| `CsvParser.ParseCsvLineFields` | src/utils/csv-parser.ts:3-15 | a parsed row's fields are the comma-separated pieces, in column order; none holds a comma; joining them gives the line back |
| `CsvParser.ParseCsvLineRoundTrip` | src/utils/csv-parser.ts:3-15 | a row whose fields hold no comma parses back from its comma-joined line |
| `CsvParser.BlankLineRejected` | src/services/migration.service.ts:17-21 | a line that is all white space never parses, so the blank-line test only saves work |
| `CsvParser.ConvertMeaning` | src/utils/csv-parser.ts:17-32 | the id is copied; the location is valid exactly when all five numeric fields parse to numbers; its numbers are then the parsed values, in column order; this states `ConvertToGeoLocation` (lines 17-24) and `IsValidGeoLocation` (lines 26-32) |
| `MigrationService.BatchSink.InsertBatch` | src/services/migration.service.ts:29 | the service receives one more batch, after those it already had |
| `MigrationService.MigrateFromCsv` | src/services/migration.service.ts:10-30 | the loop over the lines after the header hands exactly one batch to the service: the locations `Migrated` reads from the file, in line order |
| `MigrationService.ReadLine` | src/services/migration.service.ts:17-26 | one pass of the loop body gives what `LineLocation` says the line gives: nothing for a blank, malformed or non-numeric line, otherwise the converted row |
| `MigrationService.LineLocationMeaning` | src/services/migration.service.ts:17-26 | a line gives a location exactly when its trimmed text is a six-field row whose five numbers parse; the location is then the converted row, with the first field as id; this states `LineLocation` (lines 17-26) |
| `MigrationService.CollectAppend` | src/services/migration.service.ts:16-27 | reading keeps file order: the result for a concatenation of lines concatenates the results |
| `MigrationService.CollectMembers` | src/services/migration.service.ts:16-27 | every imported location is read from one of the lines, and there are never more locations than lines |
| `MigrationService.MigratedSkipsHeader` | src/services/migration.service.ts:12-16 | the first line is never read, whatever it holds, so there are fewer locations than lines in the file; this, `CollectMembers` and `MigrateFromCsv` state `Migrated` (lines 10-27) |

## Left out

- The haversine formulas (`calculateDistance` in both utility files) are trigonometry. Distances are parameters, and the only facts used are non-negativity and a zero distance from a point to itself (`Types.IsGreatCircle`).
- Floating point is not modelled; numbers are reals. `parseFloat` is a parameter returning a number or NaN. Infinities, negative zero and rounding errors are not modelled.
- The Drizzle queries are not modelled. This covers the `trackIds` and `bounds` `where` clauses, the `orderBy` clauses, `getUniqueTrackCount` and `getHeatmapForTimeRange`. Each modelled operation takes the rows the query returned.
- The Redis-backed driver operations are not modelled: `updateDriverLocation`, `getDriverLocation`, `getNearbyDrivers`, `getAllDrivers`, `removeDriver` and `updateDemandFromHeatmap`. They only store and fetch. The recommender takes the nearby drivers as a parameter.
- Axios and the network are not modelled. A request is a function from URL to outcome (routes, an HTTP failure with an optional status, or another failure). The request timeout and query parameters are not modelled.
- Promise timing is not modelled. `getMultipleRoutes` fails with the first failure in request order, whereas `Promise.all` rejects with the first failure in time.
- Asynchronous sequencing is not modelled. `await` in the recommendation loop is treated as a plain call.
- `RouteService.GetRoute`: the profile table lookup covers only the four listed profiles. Keys inherited from JavaScript's object prototype (such as `toString`) are not modelled.
- `HeatmapService.ResolveConfig`: only integer `maxPoints` values are modelled. A fractional value would make `slice` truncate.
- `Numbers.Largest`: the engine limit on the number of spread arguments to `Math.max` and `Math.min` is not modelled.
- `RouteService.FormatCoordinates`: number-to-text conversion is a parameter, `show`.
- `MigrationService.MigrateFromCsv`: reading the file is not modelled; the method takes the file's text. What `insertBatch` does with the batch is not modelled. The geo-location service splits it into database inserts of 1000 rows. `MigrationService.BatchSink` records the batches it receives.
- The websocket API, realtime tracking service, HTTP routing layer and React components are outside this core.
- `HeatmapCalculations.ClusterProperties`: its own contract only states that the members are kept. The scoring rules are stated by `ScoredSingleton`, `ScoredGroup` and `ScoredBounds`, and `ScoreCluster` is proved equal to it.

## Findings

| source | as written | input that shows it | evidently intended | confidence | as-written member | corrected member |
|---|---|---|---|---|---|---|
| src/services/route.service.ts:70-88 | The 'Route not found' error thrown at line 71 for a response without routes is thrown inside the `try`. The `catch` sees that it is not an Axios error and rethrows 'Internal server error'. | An OSRM response with `routes: []` (or no `routes`) for valid coordinates and profile | 'Route not found' reaches the caller, as it does for a 404. The model's `RouteService.GetRoute` keeps the mapping as written; `RouteService.GetRouteIntended` uses the corrected one, and `RouteService.GetRouteIntendedDiffers` shows they differ only on this input | not executed | `RouteService.EmptyRoutesMisreported` | `RouteService.RespondIntendedOutcomes` |
