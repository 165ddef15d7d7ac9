/** The demand recommender of src/services/driver.service.ts. The heatmap points, the drivers
    near the requesting driver and the route service are inputs; `calculateDistance` is the
    kilometre-valued great-circle distance `km` of src/utils/geo-calculations.ts. */
module DriverService {
  import opened Wrappers
  import opened Types
  import opened Numbers
  import opened HeatmapCalculations
  import opened HeatmapService

  /** The default `maxDistance` of lines 51 and 121. */
  const DEFAULT_MAX_DISTANCE: real := 5000.0

  /** The number of recommendations kept at line 104. */
  const MAX_RECOMMENDATIONS: int := 10

  /** The heatmap request of lines 52-59. */
  const DEMAND_REQUEST: HeatmapRequest :=
    HeatmapRequest(None, Some(PartialHeatmapConfig(Some(0.001), Some(200.0), Some(0.3), Some(50))), None)

  /** The heatmap the recommender asks for has at most 50 points, each with intensity between
      0.3 and 1 and radius at least 50. */
  lemma DemandHeatmap(rows: seq<DbRow>, metres: Distance)
    ensures var hs := GenerateHeatmap(rows, DEMAND_REQUEST, metres);
      && |hs| <= 50
      && forall a | 0 <= a < |hs| :: 0.3 <= hs[a].intensity <= 1.0 && hs[a].radius >= 50.0
  {
    var config := ResolveConfig(DEMAND_REQUEST.config);
    assert config == HeatmapConfig(0.001, 200.0, 0.3, 50);
    var ps := LocationsOf(rows);
    var hs := CreateHeatmapGrid(ps, config, metres);
    assert GenerateHeatmap(rows, DEMAND_REQUEST, metres) == hs;
    GridSize(ps, config, metres);
    GridPoints(ps, config, metres);
    assert |hs| <= 50;
    forall a | 0 <= a < |hs| ensures 0.3 <= hs[a].intensity <= 1.0 && hs[a].radius >= 50.0 {
      assert config.intensityThreshold <= hs[a].intensity;
    }
  }

  // ---------------------------------------------------------------------------
  // calculateEstimatedTime
  // ---------------------------------------------------------------------------

  /** `routeService.getRoute`: a route or the message it throws. */
  type Router = RouteRequest -> Result<RouteResponse, string>

  /** `Math.round((distance / 50) * 60)`: minutes at 50 km/h. */
  function FallbackMinutes(distanceKm: real): real
  {
    Round(distanceKm / 50.0 * 60.0) as real
  }

  /** `calculateEstimatedTime(start, end)` (lines 107-119): the duration of the driving route,
      or the fallback when the route service throws. */
  function EstimatedTime(start: GeoPoint, end: GeoPoint, router: Router, km: Distance): real
  {
    match router(RouteRequest(start, end, Some("driving")))
    case Success(route) => route.duration
    case Failure(_) => FallbackMinutes(km(start, end))
  }

  /** A found route gives its duration; otherwise the estimate is the straight-line distance in
      kilometres times 1.2, rounded to a whole number, never negative under a great-circle
      distance. */
  lemma EstimatedTimeFallback(start: GeoPoint, end: GeoPoint, router: Router, km: Distance)
    ensures var answer := router(RouteRequest(start, end, Some("driving")));
      var t := EstimatedTime(start, end, router, km);
      && (answer.Success? ==> t == answer.value.duration)
      && (answer.Failure? ==>
            && km(start, end) * 1.2 - 0.5 < t <= km(start, end) * 1.2 + 0.5
            && t == t.Floor as real
            && (IsGreatCircle(km) ==> t >= 0.0))
  {
    var x := km(start, end);
    assert x / 50.0 * 60.0 == x * 1.2;
  }

  // ---------------------------------------------------------------------------
  // Competition and score
  // ---------------------------------------------------------------------------

  function PointPosition(point: HeatmapPoint): GeoPoint { GeoPoint(point.lat, point.lng) }

  function DriverPosition(driver: DriverLocation): GeoPoint { GeoPoint(driver.lat, driver.lng) }

  /** The test of lines 69-73: an available driver within the point's radius. */
  predicate Competes(driver: DriverLocation, point: HeatmapPoint, km: Distance)
  {
    km(DriverPosition(driver), PointPosition(point)) <= point.radius && driver.status == Available
  }

  /** `nearbyDrivers.filter(...)` (lines 68-74). */
  function CompetingDrivers(nearby: seq<DriverLocation>, point: HeatmapPoint, km: Distance): seq<DriverLocation>
  {
    if nearby == [] then []
    else
      var init := CompetingDrivers(nearby[..|nearby| - 1], point, km);
      if Competes(nearby[|nearby| - 1], point, km) then init + [nearby[|nearby| - 1]] else init
  }

  /** The competing drivers are exactly the nearby drivers that compete, each as often as it is
      listed; so there are never more of them than nearby drivers. */
  lemma {:induction false} CompetingDriversMembers(nearby: seq<DriverLocation>, point: HeatmapPoint, km: Distance)
    ensures forall x ::
      multiset(CompetingDrivers(nearby, point, km))[x] == (if Competes(x, point, km) then multiset(nearby)[x] else 0)
    ensures |CompetingDrivers(nearby, point, km)| <= |nearby|
  {
    if nearby != [] {
      var init := nearby[..|nearby| - 1];
      CompetingDriversMembers(init, point, km);
      assert nearby == init + [nearby[|nearby| - 1]];
    }
  }

  /** `Math.min(competition * 0.2, 0.8)` */
  function Penalty(competition: int): real
  {
    Min(competition as real * 0.2, 0.8)
  }

  /** `demand * (1 - competitionPenalty)` */
  function FinalScore(demand: real, competition: int): real
  {
    demand * (1.0 - Penalty(competition))
  }

  /** For a non-negative demand the score lies between a fifth of the demand and the demand:
      it is the demand without competition, a fifth of it from four competitors on, and more
      competition never raises it. */
  lemma ScoreBounds(demand: real, competition: nat, more: nat)
    requires demand >= 0.0
    ensures 0.2 * demand <= FinalScore(demand, competition) <= demand
    ensures competition == 0 ==> FinalScore(demand, competition) == demand
    ensures competition >= 4 ==> FinalScore(demand, competition) == 0.2 * demand
    ensures competition <= more ==> FinalScore(demand, more) <= FinalScore(demand, competition)
  {
    var p, q := Penalty(competition), Penalty(more);
    assert 0.0 <= p <= 0.8 && 0.0 <= q <= 0.8;
    assert FinalScore(demand, competition) == demand - demand * p;
    assert FinalScore(demand, more) == demand - demand * q;
    assert demand * p <= demand * 0.8;
    if competition <= more {
      assert p <= q;
      assert demand * p <= demand * q;
    }
  }

  // ---------------------------------------------------------------------------
  // getDemandRecommendations
  // ---------------------------------------------------------------------------

  /** The record pushed at lines 84-98 for a heatmap point. */
  function Recommend(driver: GeoPoint, point: HeatmapPoint, nearby: seq<DriverLocation>, km: Distance, router: Router): DriverRecommendation
  {
    var competition := |CompetingDrivers(nearby, point, km)|;
    var finalScore := FinalScore(point.intensity, competition);
    DriverRecommendation(
      DemandPoint(point.lat, point.lng, point.intensity, point.radius, competition, finalScore),
      km(driver, PointPosition(point)),
      EstimatedTime(driver, PointPosition(point), router, km),
      competition, point.intensity, finalScore)
  }

  /** The recommendations of the heatmap points within `limit` of the driver, in heatmap order
      (the loop of lines 64-100). */
  function Candidates(driver: GeoPoint, points: seq<HeatmapPoint>, limit: real, nearby: seq<DriverLocation>,
                      km: Distance, router: Router): seq<DriverRecommendation>
  {
    if points == [] then []
    else
      var init := Candidates(driver, points[..|points| - 1], limit, nearby, km, router);
      var point := points[|points| - 1];
      if km(driver, PointPosition(point)) <= limit then init + [Recommend(driver, point, nearby, km, router)] else init
  }

  /** The first record `xs` scores below `x`, where `x` goes. */
  function Insert(xs: seq<DriverRecommendation>, x: DriverRecommendation): seq<DriverRecommendation>
  {
    if xs == [] then [x]
    else if xs[0].finalScore < x.finalScore then [x] + xs
    else [xs[0]] + Insert(xs[1..], x)
  }

  /** `.sort((a, b) => b.finalScore - a.finalScore)`: a stable sort by decreasing score. */
  function SortByScore(rs: seq<DriverRecommendation>): seq<DriverRecommendation>
  {
    if rs == [] then [] else Insert(SortByScore(rs[..|rs| - 1]), rs[|rs| - 1])
  }

  /** `recommendations.sort(...).slice(0, 10)` */
  function Recommendations(driver: GeoPoint, limit: real, points: seq<HeatmapPoint>, nearby: seq<DriverLocation>,
                           km: Distance, router: Router): seq<DriverRecommendation>
  {
    SliceTo(SortByScore(Candidates(driver, points, limit, nearby, km, router)), MAX_RECOMMENDATIONS)
  }

  /** `maxDistance` with its default. */
  function DistanceLimit(maxDistance: Option<real>): real
  {
    maxDistance.GetOr(DEFAULT_MAX_DISTANCE)
  }

  /** The loop of lines 64-100: the recommendations of the points within `limit`, in order. */
  method CollectCandidates(driver: GeoPoint, points: seq<HeatmapPoint>, limit: real, nearby: seq<DriverLocation>,
                           km: Distance, router: Router)
    returns (recommendations: seq<DriverRecommendation>)
    ensures recommendations == Candidates(driver, points, limit, nearby, km, router)
  {
    recommendations := [];
    for i := 0 to |points|
      invariant recommendations == Candidates(driver, points[..i], limit, nearby, km, router)
    {
      var point := points[i];
      assert points[..i + 1][..i] == points[..i];
      var distance := km(driver, PointPosition(point));
      if distance <= limit {
        var competition := |CompetingDrivers(nearby, point, km)|;
        var demand := point.intensity;
        var finalScore := FinalScore(demand, competition);
        var estimatedTime := EstimatedTime(driver, PointPosition(point), router, km);
        recommendations := recommendations + [DriverRecommendation(
          DemandPoint(point.lat, point.lng, point.intensity, point.radius, competition, finalScore),
          distance, estimatedTime, competition, demand, finalScore)];
      }
    }
    assert points[..|points|] == points;
  }

  /** `getDemandRecommendations(driverLocation, maxDistance)` (lines 51-105): the heatmap of
      the fixed demand request over the table's rows, and the nearby drivers it fetched. */
  method GetDemandRecommendations(driver: GeoPoint, maxDistance: Option<real>, rows: seq<DbRow>, metres: Distance,
                                  nearby: seq<DriverLocation>, km: Distance, router: Router)
    returns (r: seq<DriverRecommendation>)
    ensures r == Recommendations(driver, DistanceLimit(maxDistance), GenerateHeatmap(rows, DEMAND_REQUEST, metres),
                                 nearby, km, router)
  {
    var heatmapPoints := GenerateHeatmap(rows, DEMAND_REQUEST, metres);
    var recommendations := CollectCandidates(driver, heatmapPoints, DistanceLimit(maxDistance), nearby, km, router);
    r := SliceTo(SortByScore(recommendations), MAX_RECOMMENDATIONS);
  }

  /** Scores never increase along `xs`. */
  predicate SortedByScore(xs: seq<DriverRecommendation>)
  {
    forall a, b | 0 <= a < b < |xs| :: xs[a].finalScore >= xs[b].finalScore
  }

  /** A record scoring at least the head of a sorted list can go in front of it. */
  lemma SortedCons(y: DriverRecommendation, ys: seq<DriverRecommendation>)
    requires SortedByScore(ys)
    requires ys != [] ==> y.finalScore >= ys[0].finalScore
    ensures SortedByScore([y] + ys)
  {
    var zs := [y] + ys;
    forall a, b | 0 <= a < b < |zs| ensures zs[a].finalScore >= zs[b].finalScore {
      assert zs[b] == ys[b - 1];
      if a > 0 {
        assert zs[a] == ys[a - 1];
      } else if b > 1 {
        assert ys[0].finalScore >= ys[b - 1].finalScore;
      }
    }
  }

  /** Inserting into a sorted list keeps it sorted and adds exactly the new record. */
  lemma {:induction false} InsertSorted(xs: seq<DriverRecommendation>, x: DriverRecommendation)
    requires SortedByScore(xs)
    ensures SortedByScore(Insert(xs, x))
    ensures multiset(Insert(xs, x)) == multiset(xs) + multiset{x}
    ensures Insert(xs, x)[0] == if xs != [] && xs[0].finalScore >= x.finalScore then xs[0] else x
  {
    if xs == [] {
    } else if xs[0].finalScore < x.finalScore {
      SortedCons(x, xs);
    } else {
      var rest := Insert(xs[1..], x);
      assert SortedByScore(xs[1..]) by {
        forall a, b | 0 <= a < b < |xs[1..]| ensures xs[1..][a].finalScore >= xs[1..][b].finalScore {
          assert xs[1..][a] == xs[a + 1] && xs[1..][b] == xs[b + 1];
        }
      }
      InsertSorted(xs[1..], x);
      assert xs[1..] != [] ==> xs[0].finalScore >= xs[1..][0].finalScore;
      SortedCons(xs[0], rest);
      assert xs == [xs[0]] + xs[1..];
    }
  }

  /** The sort orders by decreasing score and is a permutation. */
  lemma {:induction false} SortByScoreSorted(rs: seq<DriverRecommendation>)
    ensures SortedByScore(SortByScore(rs))
    ensures multiset(SortByScore(rs)) == multiset(rs)
  {
    if rs != [] {
      var init, last := rs[..|rs| - 1], rs[|rs| - 1];
      var sorted := SortByScore(init);
      assert SortByScore(rs) == Insert(sorted, last);
      assert SortedByScore(sorted) && multiset(sorted) == multiset(init) by {
        SortByScoreSorted(init);
      }
      InsertSorted(sorted, last);
      assert multiset(rs) == multiset(init) + multiset{last} by {
        assert rs == init + [last];
      }
    }
  }

  /** The records of `xs` that score exactly `v`, in order. */
  function WithScore(xs: seq<DriverRecommendation>, v: real): seq<DriverRecommendation>
  {
    if xs == [] then []
    else (if xs[0].finalScore == v then [xs[0]] else []) + WithScore(xs[1..], v)
  }

  lemma {:induction false} WithScoreAppend(xs: seq<DriverRecommendation>, ys: seq<DriverRecommendation>, v: real)
    ensures WithScore(xs + ys, v) == WithScore(xs, v) + WithScore(ys, v)
  {
    if xs != [] {
      WithScoreAppend(xs[1..], ys, v);
      assert (xs + ys)[1..] == xs[1..] + ys;
    } else {
      assert xs + ys == ys;
    }
  }

  /** In a sorted list that starts below `v`, nothing scores `v`. */
  lemma {:induction false} WithScoreBelow(xs: seq<DriverRecommendation>, v: real)
    requires SortedByScore(xs)
    requires xs != [] ==> xs[0].finalScore < v
    ensures WithScore(xs, v) == []
  {
    if xs != [] {
      WithScoreBelow(xs[1..], v);
    }
  }

  /** Inserting a record places it after every record of its score already there. */
  lemma {:induction false} InsertStable(xs: seq<DriverRecommendation>, x: DriverRecommendation, v: real)
    requires SortedByScore(xs)
    ensures WithScore(Insert(xs, x), v) == WithScore(xs, v) + WithScore([x], v)
  {
    if xs == [] {
    } else if xs[0].finalScore < x.finalScore {
      if x.finalScore == v {
        WithScoreBelow(xs, v);
      }
      assert ([x] + xs)[1..] == xs;
      assert [x][1..] == [];
    } else {
      InsertStable(xs[1..], x, v);
      assert ([xs[0]] + Insert(xs[1..], x))[1..] == Insert(xs[1..], x);
    }
  }

  /** The sort is stable: the records of any one score keep their input order. */
  lemma {:induction false} SortStable(rs: seq<DriverRecommendation>, v: real)
    ensures WithScore(SortByScore(rs), v) == WithScore(rs, v)
  {
    if rs != [] {
      var init, last := rs[..|rs| - 1], rs[|rs| - 1];
      SortStable(init, v);
      SortByScoreSorted(init);
      InsertStable(SortByScore(init), last, v);
      WithScoreAppend(init, [last], v);
      assert rs == init + [last];
    }
  }

  /** A candidate is exactly the record of a heatmap point within `limit` of the driver, and
      there are no more candidates than points. */
  lemma {:induction false} CandidatesMembers(driver: GeoPoint, points: seq<HeatmapPoint>, limit: real,
                                             nearby: seq<DriverLocation>, km: Distance, router: Router)
    ensures |Candidates(driver, points, limit, nearby, km, router)| <= |points|
    ensures forall c :: c in Candidates(driver, points, limit, nearby, km, router) <==>
      exists a | 0 <= a < |points| ::
        km(driver, PointPosition(points[a])) <= limit && c == Recommend(driver, points[a], nearby, km, router)
  {
    if points != [] {
      var init := points[..|points| - 1];
      CandidatesMembers(driver, init, limit, nearby, km, router);
      assert forall a | 0 <= a < |init| :: init[a] == points[a];
    }
  }

  /** What a record says about its heatmap point: the point's position, intensity and radius
      are copied; the demand is the intensity; the competition counts the available drivers
      within the point's radius and is stored as the point's driver count; the score is the
      demand less the capped penalty and is stored as the point's score; the distance is the
      driver's distance to the point. */
  lemma RecommendFields(driver: GeoPoint, point: HeatmapPoint, nearby: seq<DriverLocation>, km: Distance, router: Router)
    ensures var r := Recommend(driver, point, nearby, km, router);
      && r.point.lat == point.lat && r.point.lng == point.lng
      && r.point.intensity == point.intensity && r.point.radius == point.radius
      && r.demand == point.intensity
      && r.competition == |CompetingDrivers(nearby, point, km)| == r.point.driverCount
      && r.finalScore == point.intensity * (1.0 - Min(0.2 * r.competition as real, 0.8)) == r.point.score
      && r.distance == km(driver, GeoPoint(point.lat, point.lng))
      && r.estimatedTime == EstimatedTime(driver, GeoPoint(point.lat, point.lng), router, km)
      && (point.intensity >= 0.0 ==> 0.2 * r.demand <= r.finalScore <= r.demand)
  {
    var c := |CompetingDrivers(nearby, point, km)|;
    assert c as real * 0.2 == 0.2 * c as real;
    if point.intensity >= 0.0 {
      ScoreBounds(point.intensity, c, c);
    }
  }

  /** The result holds at most 10 records, sorted by decreasing score; it is the first
      min(10, n) records of the stable sort of the n candidates, so every record returned is a
      candidate within `limit` of the driver, and no candidate left out scores more than the
      last one returned. */
  lemma RecommendationsShape(driver: GeoPoint, limit: real, points: seq<HeatmapPoint>, nearby: seq<DriverLocation>,
                             km: Distance, router: Router)
    ensures var cands := Candidates(driver, points, limit, nearby, km, router);
      var r := Recommendations(driver, limit, points, nearby, km, router);
      && |r| == (if |cands| < 10 then |cands| else 10)
      && SortedByScore(r)
      && r == SortByScore(cands)[..|r|]
      && (forall a | 0 <= a < |r| :: r[a] in cands && r[a].distance <= limit)
      && (forall c | c in cands :: c in r || c.finalScore <= r[|r| - 1].finalScore)
  {
    var cands := Candidates(driver, points, limit, nearby, km, router);
    var sorted := SortByScore(cands);
    var r := Recommendations(driver, limit, points, nearby, km, router);
    SortByScoreSorted(cands);
    CandidatesMembers(driver, points, limit, nearby, km, router);
    forall a | 0 <= a < |r|
      ensures r[a] in cands && r[a].distance <= limit
    {
      assert r[a] == sorted[a] && sorted[a] in multiset(sorted);
    }
    forall c | c in cands
      ensures c in r || c.finalScore <= r[|r| - 1].finalScore
    {
      assert c in multiset(sorted);
      var k :| 0 <= k < |sorted| && sorted[k] == c;
      if k >= |r| {
        assert sorted[|r| - 1] == r[|r| - 1];
      }
    }
  }

  /** `getBestDemandPoint` on the recommendations. */
  function BestOf(rs: seq<DriverRecommendation>): Option<DriverRecommendation>
  {
    if |rs| > 0 then Some(rs[0]) else None
  }

  /** There is no best point exactly when no heatmap point lies within `limit` of the driver;
      otherwise the best point is a candidate that no candidate outscores, and among those with
      its score it is the first in heatmap order. */
  lemma BestDemandPoint(driver: GeoPoint, limit: real, points: seq<HeatmapPoint>, nearby: seq<DriverLocation>,
                        km: Distance, router: Router)
    ensures var cands := Candidates(driver, points, limit, nearby, km, router);
      var best := BestOf(Recommendations(driver, limit, points, nearby, km, router));
      && (best.None? <==> forall a | 0 <= a < |points| :: km(driver, PointPosition(points[a])) > limit)
      && (best.Some? ==>
            && best.value in cands
            && (forall c | c in cands :: c.finalScore <= best.value.finalScore)
            && WithScore(cands, best.value.finalScore) != []
            && best.value == WithScore(cands, best.value.finalScore)[0])
  {
    var cands := Candidates(driver, points, limit, nearby, km, router);
    var sorted := SortByScore(cands);
    SortByScoreSorted(cands);
    assert cands == [] <==> forall a | 0 <= a < |points| :: km(driver, PointPosition(points[a])) > limit by {
      CandidatesMembers(driver, points, limit, nearby, km, router);
      if exists a | 0 <= a < |points| :: km(driver, PointPosition(points[a])) <= limit {
        var a :| 0 <= a < |points| && km(driver, PointPosition(points[a])) <= limit;
        assert Recommend(driver, points[a], nearby, km, router) in cands;
      }
      if cands != [] {
        assert cands[0] in cands;
      }
    }
    if cands != [] {
      assert |sorted| > 0;
      var top := sorted[0];
      assert top in cands by {
        assert top in multiset(sorted);
      }
      forall c | c in cands
        ensures c.finalScore <= top.finalScore
      {
        assert c in multiset(sorted);
      }
      assert WithScore(cands, top.finalScore) == WithScore(sorted, top.finalScore) by {
        SortStable(cands, top.finalScore);
      }
      assert WithScore(sorted, top.finalScore)[0] == top;
    }
  }

  /** `getBestDemandPoint(driverLocation, maxDistance)` (lines 121-124). */
  method GetBestDemandPoint(driver: GeoPoint, maxDistance: Option<real>, rows: seq<DbRow>, metres: Distance,
                            nearby: seq<DriverLocation>, km: Distance, router: Router)
    returns (best: Option<DriverRecommendation>)
    ensures best == BestOf(Recommendations(driver, DistanceLimit(maxDistance), GenerateHeatmap(rows, DEMAND_REQUEST, metres),
                                           nearby, km, router))
  {
    var recommendations := GetDemandRecommendations(driver, maxDistance, rows, metres, nearby, km, router);
    best := if |recommendations| > 0 then Some(recommendations[0]) else None;
  }

  /** On the demand heatmap, at most 10 recommendations come back, each within the distance
      limit, with a demand between 0.3 and 1 and a score between 0.06 and that demand. */
  lemma DemandRecommendationsBounds(driver: GeoPoint, limit: real, rows: seq<DbRow>, metres: Distance,
                                    nearby: seq<DriverLocation>, km: Distance, router: Router)
    ensures var r := Recommendations(driver, limit, GenerateHeatmap(rows, DEMAND_REQUEST, metres), nearby, km, router);
      && |r| <= 10
      && forall a | 0 <= a < |r| ::
           && r[a].distance <= limit
           && 0.3 <= r[a].demand <= 1.0
           && 0.06 <= r[a].finalScore <= r[a].demand
  {
    var hs := GenerateHeatmap(rows, DEMAND_REQUEST, metres);
    var cands := Candidates(driver, hs, limit, nearby, km, router);
    var r := Recommendations(driver, limit, hs, nearby, km, router);
    DemandHeatmap(rows, metres);
    RecommendationsShape(driver, limit, hs, nearby, km, router);
    CandidatesMembers(driver, hs, limit, nearby, km, router);
    forall a | 0 <= a < |r|
      ensures 0.3 <= r[a].demand <= 1.0 && 0.06 <= r[a].finalScore <= r[a].demand
    {
      assert r[a] in cands;
      var i :| 0 <= i < |hs| && km(driver, PointPosition(hs[i])) <= limit && r[a] == Recommend(driver, hs[i], nearby, km, router);
      RecommendFields(driver, hs[i], nearby, km, router);
    }
  }
}
