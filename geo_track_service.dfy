/** Track assembly of src/services/geo-track.service.ts. The Drizzle queries are not modelled:
    each operation receives the rows its query returned. */
module GeoTrackService {
  import opened Wrappers
  import opened Types
  import opened Numbers
  import opened GeoCalculations

  /** `locations.map(loc => ({ lat: loc.lat, lng: loc.lng }))` */
  function Points(locs: seq<GeoLocation>): seq<GeoPoint>
  {
    seq(|locs|, k requires 0 <= k < |locs| => Position(locs[k]))
  }

  /** The track record built for `id` from its locations under `options`. */
  function BuildTrack(id: string, locs: seq<GeoLocation>, options: GeoTrackOptions, km: Distance): GeoTrack
  {
    var length := PathLength(Points(locs), km);
    GeoTrack(
      id,
      if options.includeRoute
      then Some(GeoRoute(Points(locs), if options.includeDistance then length else 0.0, CalculateDuration(locs)))
      else None,
      if options.includeDistance && !options.includeRoute then Some(length) else None,
      |locs|)
  }

  /** The conditional assembly of a track record (lines 28-59 and 82-106): the route only when
      requested, with distance 0 unless the distance is requested too; the total distance only
      when the distance is requested without the route. */
  method AssembleTrack(id: string, locs: seq<GeoLocation>, options: GeoTrackOptions, km: Distance) returns (track: GeoTrack)
    ensures track == BuildTrack(id, locs, options, km)
  {
    track := GeoTrack(id, None, None, |locs|);
    if options.includeRoute {
      var points := Points(locs);
      var distance := 0.0;
      if options.includeDistance {
        distance := CalculateTotalDistance(points, km);
      }
      track := track.(route := Some(GeoRoute(points, distance, CalculateDuration(locs))));
    }
    if options.includeDistance && !options.includeRoute {
      var points := Points(locs);
      var distance := CalculateTotalDistance(points, km);
      track := track.(totalDistance := Some(distance));
    }
  }

  /** What a track record holds: its id and point count; a route exactly when requested, with
      one point per location (latitude and longitude copied) and the "duration" of the
      locations; and the path length reported exactly when the distance is requested, as the
      route's distance when there is a route and as `totalDistance` otherwise. Under a
      great-circle distance every reported distance is non-negative. */
  lemma BuildTrackShape(id: string, locs: seq<GeoLocation>, options: GeoTrackOptions, km: Distance)
    ensures var t := BuildTrack(id, locs, options, km);
      && t.id == id && t.pointCount == |locs|
      && (t.route.Some? <==> options.includeRoute)
      && (t.totalDistance.Some? <==> options.includeDistance && !options.includeRoute)
      && (t.route.Some? ==>
            && |t.route.value.points| == |locs|
            && (forall k | 0 <= k < |locs| ::
                  t.route.value.points[k].lat == locs[k].lat && t.route.value.points[k].lng == locs[k].lng)
            && t.route.value.duration == CalculateDuration(locs)
            && t.route.value.distance == if options.includeDistance then PathLength(Points(locs), km) else 0.0)
      && (t.totalDistance.Some? ==> t.totalDistance.value == PathLength(Points(locs), km))
      && (IsGreatCircle(km) ==>
            && (t.route.Some? ==> t.route.value.distance >= 0.0)
            && (t.totalDistance.Some? ==> t.totalDistance.value >= 0.0))
  {
    if IsGreatCircle(km) {
      PathLengthNonNegative(Points(locs), km);
    }
  }

  /** `getTrackById(trackId, options)` (lines 19-62) on the rows its query returned. */
  function TrackById(trackId: string, rows: seq<DbRow>, options: GeoTrackOptions, km: Distance): Option<GeoTrack>
  {
    if rows == [] then None else Some(BuildTrack(trackId, LocationsOf(rows), options, km))
  }

  method GetTrackById(trackId: string, rows: seq<DbRow>, options: GeoTrackOptions, km: Distance) returns (r: Option<GeoTrack>)
    ensures r == TrackById(trackId, rows, options, km)
    ensures r.None? <==> rows == []
    ensures r.Some? ==> r.value.id == trackId && r.value.pointCount == |rows|
  {
    if |rows| == 0 {
      return None;
    }
    var track := AssembleTrack(trackId, LocationsOf(rows), options, km);
    return Some(track);
  }

  /** The track records of `ids`, in order. */
  function Tracks(ids: seq<string>, locs: seq<GeoLocation>, options: GeoTrackOptions, km: Distance): (r: seq<GeoTrack>)
    ensures |r| == |ids|
  {
    if ids == [] then []
    else Tracks(ids[..|ids| - 1], locs, options, km) + [BuildTrack(ids[|ids| - 1], TrackOf(locs, ids[|ids| - 1]), options, km)]
  }

  /** One track record per track id, in order of first occurrence. */
  function AllTracks(locs: seq<GeoLocation>, options: GeoTrackOptions, km: Distance): seq<GeoTrack>
  {
    Tracks(TrackIds(locs), locs, options, km)
  }

  /** `getAllTracks(options)` (lines 64-112) on the rows its query returned. */
  method GetAllTracks(rows: seq<DbRow>, options: GeoTrackOptions, km: Distance) returns (tracks: seq<GeoTrack>)
    ensures tracks == AllTracks(LocationsOf(rows), options, km)
  {
    var locs := LocationsOf(rows);
    var trackMap := GroupLocationsByTrack(locs);
    tracks := [];
    for i := 0 to |trackMap.keys|
      invariant tracks == Tracks(trackMap.keys[..i], locs, options, km)
    {
      var trackId := trackMap.keys[i];
      assert trackMap.keys[..i + 1][..i] == trackMap.keys[..i];
      var track := AssembleTrack(trackId, trackMap.groups[trackId], options, km);
      tracks := tracks + [track];
    }
    assert trackMap.keys[..|trackMap.keys|] == trackMap.keys;
  }

  /** Track k is built from the k-th track id and exactly that id's locations. */
  lemma {:induction false} TracksAt(ids: seq<string>, locs: seq<GeoLocation>, options: GeoTrackOptions, km: Distance)
    ensures forall k | 0 <= k < |ids| :: Tracks(ids, locs, options, km)[k] == BuildTrack(ids[k], TrackOf(locs, ids[k]), options, km)
  {
    if ids != [] {
      TracksAt(ids[..|ids| - 1], locs, options, km);
    }
  }

  /** The sum of the point counts. */
  function TotalPointCount(tracks: seq<GeoTrack>): int
  {
    if tracks == [] then 0 else TotalPointCount(tracks[..|tracks| - 1]) + tracks[|tracks| - 1].pointCount
  }

  lemma {:induction false} TracksPointCount(ids: seq<string>, locs: seq<GeoLocation>, options: GeoTrackOptions, km: Distance)
    ensures TotalPointCount(Tracks(ids, locs, options, km)) == GroupSizes(ids, locs)
  {
    if ids != [] {
      var init := ids[..|ids| - 1];
      TracksPointCount(init, locs, options, km);
      var ts := Tracks(ids, locs, options, km);
      assert ts[..|ts| - 1] == Tracks(init, locs, options, km);
    }
  }

  /** Track k of `getAllTracks` carries the k-th distinct id and counts that id's locations,
      of which there is at least one. */
  lemma AllTracksIds(locs: seq<GeoLocation>, options: GeoTrackOptions, km: Distance)
    ensures var tracks := AllTracks(locs, options, km);
      && |tracks| == |TrackIds(locs)|
      && forall k | 0 <= k < |tracks| ::
           tracks[k].id == TrackIds(locs)[k] && tracks[k].pointCount == |TrackOf(locs, tracks[k].id)| > 0
  {
    var ids := TrackIds(locs);
    var tracks := AllTracks(locs, options, km);
    TracksAt(ids, locs, options, km);
    TrackIdsKeys(locs);
    forall k | 0 <= k < |tracks|
      ensures tracks[k].id == ids[k] && tracks[k].pointCount == |TrackOf(locs, ids[k])| > 0
    {
      assert ids[k] in ids;
    }
  }

  /** `getAllTracks` yields one track per distinct id with distinct ids, and the point counts
      add up to the number of rows. */
  lemma AllTracksCover(rows: seq<DbRow>, options: GeoTrackOptions, km: Distance)
    ensures var tracks := AllTracks(LocationsOf(rows), options, km);
      && |tracks| == |TrackIds(LocationsOf(rows))|
      && (forall a, b | 0 <= a < b < |tracks| :: tracks[a].id != tracks[b].id)
      && TotalPointCount(tracks) == |rows|
  {
    var locs := LocationsOf(rows);
    AllTracksIds(locs, options, km);
    TracksPointCount(TrackIds(locs), locs, options, km);
    TrackIdsKeys(locs);
    GroupsCoverInput(locs);
  }

  /** Given the rows of one track (as its query returns them, in table order), `getTrackById`
      finds nothing exactly when `getAllTracks` has no track of that id, and otherwise returns
      the very record `getAllTracks` lists for it. */
  lemma TrackByIdAgrees(trackId: string, rows: seq<DbRow>, table: seq<DbRow>, options: GeoTrackOptions, km: Distance)
    requires LocationsOf(rows) == TrackOf(LocationsOf(table), trackId)
    ensures var tracks := AllTracks(LocationsOf(table), options, km);
      && (TrackById(trackId, rows, options, km).None? <==> forall k | 0 <= k < |tracks| :: tracks[k].id != trackId)
      && (TrackById(trackId, rows, options, km).Some? ==> TrackById(trackId, rows, options, km).value in tracks)
  {
    var locs := LocationsOf(table);
    var ids := TrackIds(locs);
    TracksAt(ids, locs, options, km);
    TrackIdsKeys(locs);
    if rows != [] {
      assert trackId in ids;
      var k :| 0 <= k < |ids| && ids[k] == trackId;
      assert AllTracks(locs, options, km)[k] == BuildTrack(trackId, TrackOf(locs, trackId), options, km);
    }
  }

  // ---------------------------------------------------------------------------
  // getTrackStats
  // ---------------------------------------------------------------------------

  /** `Math.round(x * 100) / 100`: rounding to two decimals. */
  function RoundCents(x: real): real
  {
    Round(x * 100.0) as real / 100.0
  }

  /** `v` is a whole number of hundredths. */
  predicate WholeCents(v: real)
  {
    (v * 100.0).Floor as real == v * 100.0
  }

  /** Rounding to two decimals gives a whole number of hundredths, moves a value by at most half
      a cent, and keeps a value of at least 1 at least 1. */
  lemma RoundCentsBounds(x: real)
    ensures WholeCents(RoundCents(x))
    ensures x - 0.005 < RoundCents(x) <= x + 0.005
    ensures x >= 1.0 ==> RoundCents(x) >= 1.0
  {
    var y := x * 100.0;
    assert y - 0.5 < Round(y) as real <= y + 0.5;
  }

  /** The mean number of points per track, or 0 without tracks. */
  function MeanPoints(totalPoints: int, totalTracks: int): real
  {
    if totalTracks > 0 then totalPoints as real / totalTracks as real else 0.0
  }

  /** `getTrackStats()` (lines 114-134) on all rows of the table. */
  function TrackStats(rows: seq<DbRow>): GeoTrackStats
  {
    var totalTracks := |TrackIds(LocationsOf(rows))|;
    GeoTrackStats(totalTracks, |rows|, RoundCents(MeanPoints(|rows|, totalTracks)))
  }

  /** With at least one track and no more tracks than points, the reported average is a whole
      number of hundredths within half a cent of points / tracks, and at least 1. */
  lemma MeanPointsBounds(points: int, tracks: int)
    requires 0 < tracks <= points
    ensures var avg := RoundCents(MeanPoints(points, tracks));
      && WholeCents(avg)
      && points as real / tracks as real - 0.005 < avg <= points as real / tracks as real + 0.005
      && avg >= 1.0
  {
    var mean := MeanPoints(points, tracks);
    RoundCentsBounds(mean);
    DivBetween(points as real, tracks as real, 1.0, points as real);
  }

  /** The statistics count the distinct track ids (as many as `getAllTracks` lists) and the rows;
      without rows all is 0; otherwise there are at most as many tracks as rows and the
      average is a whole number of hundredths within half a cent of rows / tracks, and at
      least 1. */
  lemma TrackStatsBounds(rows: seq<DbRow>, options: GeoTrackOptions, km: Distance)
    ensures var s := TrackStats(rows);
      && s.totalTracks == |AllTracks(LocationsOf(rows), options, km)|
      && s.totalPoints == |rows|
      && (rows == [] ==> s == GeoTrackStats(0, 0, 0.0))
      && (rows != [] ==>
            && 0 < s.totalTracks <= s.totalPoints
            && WholeCents(s.averagePointsPerTrack)
            && |rows| as real / s.totalTracks as real - 0.005 < s.averagePointsPerTrack
            && s.averagePointsPerTrack <= |rows| as real / s.totalTracks as real + 0.005
            && s.averagePointsPerTrack >= 1.0)
  {
    var locs := LocationsOf(rows);
    TrackIdsKeys(locs);
    if rows != [] {
      var avg := RoundCents(MeanPoints(|rows|, |TrackIds(locs)|));
      MeanPointsBounds(|rows|, |TrackIds(locs)|);
      assert TrackStats(rows).averagePointsPerTrack == avg;
    } else {
      assert Round(0.0) == 0;
    }
  }
}
