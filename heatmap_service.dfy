/** The heatmap service of src/services/heatmap.service.ts: configuration defaults, the mapping
    of stored rows to locations, and the composition of the heatmap engine. The database query
    is not modelled: each operation receives the rows the query returned. */
module HeatmapService {
  import opened Wrappers
  import opened Types
  import opened Constants
  import opened HeatmapCalculations
  import opened Numbers

  /** JavaScript `value || fallback` on an optional number: a missing value and 0 are falsy. */
  function OrDefault(value: Option<real>, fallback: real): (r: real)
    ensures r == fallback || (value.Some? && r == value.value && r != 0.0)
  {
    if value.Some? && value.value != 0.0 then value.value else fallback
  }

  function OrDefaultInt(value: Option<int>, fallback: int): (r: int)
    ensures r == fallback || (value.Some? && r == value.value && r != 0)
  {
    if value.Some? && value.value != 0 then value.value else fallback
  }

  /** The configuration built at lines 24-29 (and again at 76-81 and 104-109) from an optional
      partial configuration. */
  function ResolveConfig(config: Option<PartialHeatmapConfig>): HeatmapConfig
  {
    match config
    case None =>
      HeatmapConfig(DEFAULT_GRID_SIZE, DEFAULT_RADIUS, DEFAULT_INTENSITY_THRESHOLD, DEFAULT_MAX_POINTS)
    case Some(c) =>
      HeatmapConfig(
        OrDefault(c.gridSize, DEFAULT_GRID_SIZE),
        OrDefault(c.radius, DEFAULT_RADIUS),
        OrDefault(c.intensityThreshold, DEFAULT_INTENSITY_THRESHOLD),
        OrDefaultInt(c.maxPoints, DEFAULT_MAX_POINTS))
  }

  /** A complete configuration seen as a partial one. */
  function AsPartial(config: HeatmapConfig): PartialHeatmapConfig
  {
    PartialHeatmapConfig(Some(config.gridSize), Some(config.radius), Some(config.intensityThreshold), Some(config.maxPoints))
  }

  /** Each field takes the requested value when it is present and non-zero, and the default
      otherwise: an explicit 0 is replaced by the default just like a missing field. */
  lemma ResolveConfigFields(c: PartialHeatmapConfig)
    ensures var r := ResolveConfig(Some(c));
      && (r.gridSize == if c.gridSize.Some? && c.gridSize.value != 0.0 then c.gridSize.value else 0.001)
      && (r.radius == if c.radius.Some? && c.radius.value != 0.0 then c.radius.value else 100.0)
      && (r.intensityThreshold == if c.intensityThreshold.Some? && c.intensityThreshold.value != 0.0
                                  then c.intensityThreshold.value else 0.1)
      && (r.maxPoints == if c.maxPoints.Some? && c.maxPoints.value != 0 then c.maxPoints.value else 1000)
  {
  }

  /** No resolved field is ever 0, and resolving is the same with no configuration as with an
      empty one. */
  lemma ResolveConfigNonZero(config: Option<PartialHeatmapConfig>)
    ensures var r := ResolveConfig(config);
      r.gridSize != 0.0 && r.radius != 0.0 && r.intensityThreshold != 0.0 && r.maxPoints != 0
    ensures ResolveConfig(None) == ResolveConfig(Some(PartialHeatmapConfig(None, None, None, None)))
  {
  }

  /** Resolving an already resolved configuration changes nothing. */
  lemma ResolveConfigIdempotent(config: Option<PartialHeatmapConfig>)
    ensures ResolveConfig(Some(AsPartial(ResolveConfig(config)))) == ResolveConfig(config)
  {
    ResolveConfigNonZero(config);
  }

  /** `generateHeatmap(request)` (lines 23-59) on the rows its query returned. */
  function GenerateHeatmap(rows: seq<DbRow>, request: HeatmapRequest, d: Distance): seq<HeatmapPoint>
  {
    CreateHeatmapGrid(LocationsOf(rows), ResolveConfig(request.config), d)
  }

  /** `generateHeatmapForTrack(trackId, config)` (lines 61-84) on the rows of that track. */
  function GenerateHeatmapForTrack(rows: seq<DbRow>, config: Option<PartialHeatmapConfig>, d: Distance): seq<HeatmapPoint>
  {
    CreateHeatmapGrid(LocationsOf(rows), ResolveConfig(config), d)
  }

  /** The heatmap of one track holds no more points than the track has rows, and at most the
      resolved `maxPoints` when that is positive (1000 when no configuration is given); every
      point reaches the resolved intensity threshold and has intensity at most 1, radius at
      least 50 and a positive count. */
  lemma TrackHeatmapBounds(rows: seq<DbRow>, config: Option<PartialHeatmapConfig>, d: Distance)
    ensures var c, h := ResolveConfig(config), GenerateHeatmapForTrack(rows, config, d);
      && |h| <= |rows|
      && (c.maxPoints > 0 ==> |h| <= c.maxPoints)
      && (config.None? ==> |h| <= 1000)
      && forall a | 0 <= a < |h| ::
           && c.intensityThreshold <= h[a].intensity <= 1.0
           && h[a].radius >= CLUSTERING_DISTANCE
           && h[a].count >= 1
  {
    var c, ps := ResolveConfig(config), LocationsOf(rows);
    GridSize(ps, c, d);
    GridPoints(ps, c, d);
    ClusterPartition(ps, d, ClusterThreshold(c));
  }

  /** `generateHeatmapForBounds(bounds, config)` (lines 86-91): a request with only bounds and
      configuration. */
  function GenerateHeatmapForBounds(rows: seq<DbRow>, bounds: Bounds, config: Option<PartialHeatmapConfig>, d: Distance): seq<HeatmapPoint>
  {
    GenerateHeatmap(rows, HeatmapRequest(Some(bounds), config, None), d)
  }

  /** On the same rows, the bounded heatmap is the track heatmap with the same configuration:
      only the query differs between them. */
  lemma ForBoundsIsGenerate(rows: seq<DbRow>, bounds: Bounds, config: Option<PartialHeatmapConfig>, d: Distance)
    ensures GenerateHeatmapForBounds(rows, bounds, config, d) == GenerateHeatmapForTrack(rows, config, d)
  {
  }

  /** The result of `getHeatmapStats`: the statistics and the configuration used. */
  datatype HeatmapStatsReport = HeatmapStatsReport(stats: HeatmapStats, config: HeatmapConfig)

  /** `getHeatmapStats(request)` (lines 93-115). */
  function GetHeatmapStats(rows: seq<DbRow>, request: HeatmapRequest, d: Distance): HeatmapStatsReport
  {
    HeatmapStatsReport(CalculateHeatmapStats(GenerateHeatmap(rows, request, d)), ResolveConfig(request.config))
  }

  /** The reported configuration is the one the heatmap was built with; the point count is at
      most its `maxPoints` when that is positive (1000 when none is given); with points, the
      intensities lie between the threshold and 1, the total is the sum of the heatmap's
      intensities, and the average is that total over the count and lies between the extremes;
      without points every statistic is 0. */
  lemma HeatmapStatsReportBounds(rows: seq<DbRow>, request: HeatmapRequest, d: Distance)
    ensures var report := GetHeatmapStats(rows, request, d);
      var config := report.config;
      && GenerateHeatmap(rows, request, d) == CreateHeatmapGrid(LocationsOf(rows), config, d)
      && report.stats.totalPoints == |GenerateHeatmap(rows, request, d)|
      && (config.maxPoints > 0 ==> report.stats.totalPoints <= config.maxPoints)
      && (request.config.None? ==> report.stats.totalPoints <= 1000)
      && (report.stats.totalPoints > 0 ==>
            && config.intensityThreshold <= report.stats.minIntensity
            && report.stats.totalIntensity == Sum(Intensities(GenerateHeatmap(rows, request, d)))
            && report.stats.averageIntensity == report.stats.totalIntensity / report.stats.totalPoints as real
            && report.stats.minIntensity <= report.stats.averageIntensity <= report.stats.maxIntensity
            && report.stats.maxIntensity <= 1.0)
      && (report.stats.totalPoints == 0 ==> report.stats == HeatmapStats(0, 0.0, 0.0, 0.0, 0.0))
  {
    var config := ResolveConfig(request.config);
    var grid := GenerateHeatmap(rows, request, d);
    GridSize(LocationsOf(rows), config, d);
    GridPoints(LocationsOf(rows), config, d);
    HeatmapStatsBounds(grid);
    if grid != [] {
      var st := CalculateHeatmapStats(grid);
      var a :| 0 <= a < |grid| && grid[a].intensity == st.minIntensity;
      var b :| 0 <= b < |grid| && grid[b].intensity == st.maxIntensity;
    }
  }

  /** `getClusteredPoints(request, clusteringDistance = 50)` (lines 117-150): a missing distance
      is 50 metres; an explicit 0 is kept, as JavaScript default parameters only replace
      `undefined`. */
  function GetClusteredPoints(rows: seq<DbRow>, clusteringDistance: Option<real>, d: Distance): seq<ClusteredPoint>
  {
    ScoredClusters(LocationsOf(rows), d, ClusteringDistance(clusteringDistance))
  }

  /** The distance `getClusteredPoints` clusters at. */
  function ClusteringDistance(clusteringDistance: Option<real>): (r: real)
    ensures clusteringDistance.None? ==> r == 50.0
    ensures clusteringDistance.Some? ==> r == clusteringDistance.value
  {
    clusteringDistance.GetOr(CLUSTERING_DISTANCE)
  }

  /** One scored cluster per raw cluster of the rows at the chosen distance, in cluster order,
      and the members of all clusters together number the rows. */
  lemma ClusteredPointsShape(rows: seq<DbRow>, clusteringDistance: Option<real>, d: Distance)
    ensures var raw := Clusters(LocationsOf(rows), d, ClusteringDistance(clusteringDistance));
      var r := GetClusteredPoints(rows, clusteringDistance, d);
      && |r| == |raw|
      && (forall c | 0 <= c < |r| :: r[c] == ClusterProperties(raw[c], d))
      && TotalMembers(r) == |rows|
  {
    var ps := LocationsOf(rows);
    var t := ClusteringDistance(clusteringDistance);
    ScoredClustersBounds(ps, d, t);
    ClusterPartition(ps, d, t);
    ScoredMembers(Clusters(ps, d, t), d);
  }

  /** Every clustered point keeps its members, has 0 < intensity <= 1, a radius of at least 50
      and a count equal to its number of members. */
  lemma ClusteredPointsBounds(rows: seq<DbRow>, clusteringDistance: Option<real>, d: Distance)
    ensures var r := GetClusteredPoints(rows, clusteringDistance, d);
      forall c | 0 <= c < |r| ::
        |r[c].points| > 0 && 0.0 < r[c].intensity <= 1.0 && r[c].radius >= 50.0 && r[c].count == |r[c].points|
  {
    ScoredClustersBounds(LocationsOf(rows), d, ClusteringDistance(clusteringDistance));
  }
}
