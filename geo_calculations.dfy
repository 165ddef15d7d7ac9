/** The track helpers of src/utils/geo-calculations.ts. `calculateDistance` (the haversine
    formula in kilometres) is a `Distance` parameter `km`. */
module GeoCalculations {
  import opened Types
  import opened Numbers

  // ---------------------------------------------------------------------------
  // calculateTotalDistance
  // ---------------------------------------------------------------------------

  /** The length of the path through `points`: the legs between consecutive points, added in
      order; 0 for fewer than two points. */
  function PathLength(points: seq<GeoPoint>, km: Distance): real
  {
    if |points| < 2 then 0.0
    else PathLength(points[..|points| - 1], km) + km(points[|points| - 2], points[|points| - 1])
  }

  /** `calculateTotalDistance(points)` (lines 19-28). */
  method CalculateTotalDistance(points: seq<GeoPoint>, km: Distance) returns (total: real)
    ensures total == PathLength(points, km)
  {
    if |points| < 2 {
      return 0.0;
    }
    total := 0.0;
    for i := 1 to |points|
      invariant total == PathLength(points[..i], km)
    {
      assert points[..i + 1][..i] == points[..i];
      total := total + km(points[i - 1], points[i]);
    }
    assert points[..|points|] == points;
  }

  /** The legs of the path: leg k runs from point k to point k + 1. */
  function Legs(points: seq<GeoPoint>, km: Distance): (r: seq<real>)
    ensures |points| >= 1 ==> |r| == |points| - 1
    ensures |points| == 0 ==> r == []
  {
    if |points| < 2 then [] else seq(|points| - 1, k requires 0 <= k < |points| - 1 => km(points[k], points[k + 1]))
  }

  /** The path length is the sum of its legs. */
  lemma {:induction false} PathIsSumOfLegs(points: seq<GeoPoint>, km: Distance)
    ensures PathLength(points, km) == Sum(Legs(points, km))
  {
    if |points| >= 2 {
      var init := points[..|points| - 1];
      PathIsSumOfLegs(init, km);
      var legs := Legs(points, km);
      if |points| == 2 {
        assert legs == [km(points[0], points[1])];
        assert legs[..0] == [];
      } else {
        assert legs[..|legs| - 1] == Legs(init, km);
      }
    }
  }

  /** Appending a point to a path of at least one point adds exactly the last leg. */
  lemma PathLengthSnoc(points: seq<GeoPoint>, p: GeoPoint, km: Distance)
    requires |points| >= 1
    ensures PathLength(points + [p], km) == PathLength(points, km) + km(points[|points| - 1], p)
  {
    assert (points + [p])[..|points|] == points;
  }

  /** Joining two paths adds the leg between them. */
  lemma {:induction false} PathLengthAppend(xs: seq<GeoPoint>, ys: seq<GeoPoint>, km: Distance)
    requires |xs| >= 1 && |ys| >= 1
    ensures PathLength(xs + ys, km) == PathLength(xs, km) + km(xs[|xs| - 1], ys[0]) + PathLength(ys, km)
    decreases |ys|
  {
    if |ys| == 1 {
      PathLengthSnoc(xs, ys[0], km);
    } else {
      var init := ys[..|ys| - 1];
      PathLengthAppend(xs, init, km);
      var whole := xs + ys;
      assert whole[..|whole| - 1] == xs + init;
    }
  }

  /** Under a great-circle distance the path length is never negative. */
  lemma {:induction false} PathLengthNonNegative(points: seq<GeoPoint>, km: Distance)
    requires IsGreatCircle(km)
    ensures PathLength(points, km) >= 0.0
  {
    if |points| >= 2 {
      PathLengthNonNegative(points[..|points| - 1], km);
      assert km(points[|points| - 2], points[|points| - 1]) >= 0.0;
    }
  }

  /** Under a great-circle distance, a path that stays at one point has length 0. */
  lemma {:induction false} PathLengthStationary(points: seq<GeoPoint>, km: Distance)
    requires IsGreatCircle(km)
    requires forall k | 0 <= k < |points| :: points[k] == points[0]
    ensures PathLength(points, km) == 0.0
  {
    if |points| >= 2 {
      PathLengthStationary(points[..|points| - 1], km);
      assert km(points[0], points[0]) == 0.0;
    }
  }

  // ---------------------------------------------------------------------------
  // calculateDuration
  // ---------------------------------------------------------------------------

  /** `calculateDuration(locations)` (lines 30-37): the absolute difference between the last and
      the first azimuth, or 0 for fewer than two locations. */
  function CalculateDuration(locs: seq<GeoLocation>): (r: real)
    ensures r >= 0.0
    ensures |locs| < 2 ==> r == 0.0
  {
    if |locs| < 2 then 0.0 else Abs(locs[|locs| - 1].azm - locs[0].azm)
  }

  /** The "duration" depends only on the first and the last location: whatever lies between
      them, and whichever way they are listed, gives the same value. */
  lemma DurationEndpoints(first: GeoLocation, middle: seq<GeoLocation>, last: GeoLocation)
    ensures CalculateDuration([first] + middle + [last]) == CalculateDuration([first, last])
    ensures CalculateDuration([first, last]) == CalculateDuration([last, first])
  {
  }

  // ---------------------------------------------------------------------------
  // groupLocationsByTrack
  // ---------------------------------------------------------------------------

  /** The distinct track ids of `locs` in order of first occurrence: the key order of the
      JavaScript `Map` the grouping builds. */
  function TrackIds(locs: seq<GeoLocation>): seq<string>
  {
    if locs == [] then []
    else
      var ids := TrackIds(locs[..|locs| - 1]);
      var id := locs[|locs| - 1].id;
      if id in ids then ids else ids + [id]
  }

  /** The locations of one track, in input order. */
  function TrackOf(locs: seq<GeoLocation>, id: string): seq<GeoLocation>
  {
    if locs == [] then []
    else
      var init := TrackOf(locs[..|locs| - 1], id);
      if locs[|locs| - 1].id == id then init + [locs[|locs| - 1]] else init
  }

  /** A JavaScript `Map<string, GeoLocation[]>`: its keys in insertion order and its entries. */
  datatype TrackMap = TrackMap(keys: seq<string>, groups: map<string, seq<GeoLocation>>)

  /** An id not among the track ids has no locations. */
  lemma {:induction false} TrackOfAbsent(locs: seq<GeoLocation>, id: string)
    requires id !in TrackIds(locs)
    ensures TrackOf(locs, id) == []
  {
    if locs != [] {
      TrackOfAbsent(locs[..|locs| - 1], id);
    }
  }

  /** `groupLocationsByTrack(locations)` (lines 39-49). */
  method GroupLocationsByTrack(locs: seq<GeoLocation>) returns (m: TrackMap)
    ensures m.keys == TrackIds(locs)
    ensures forall id :: id in m.groups <==> id in m.keys
    ensures forall id | id in m.groups :: m.groups[id] == TrackOf(locs, id)
  {
    var keys: seq<string> := [];
    var groups: map<string, seq<GeoLocation>> := map[];
    for i := 0 to |locs|
      invariant keys == TrackIds(locs[..i])
      invariant forall id :: id in groups <==> id in keys
      invariant forall id | id in groups :: groups[id] == TrackOf(locs[..i], id)
    {
      var loc := locs[i];
      assert locs[..i + 1][..i] == locs[..i];
      var existing := if loc.id in groups then groups[loc.id] else [];
      if loc.id !in groups {
        TrackOfAbsent(locs[..i], loc.id);
        keys := keys + [loc.id];
      }
      groups := groups[loc.id := existing + [loc]];
    }
    assert locs[..|locs|] == locs;
    m := TrackMap(keys, groups);
  }

  /** No track id is listed twice. */
  predicate Distinct(ids: seq<string>)
  {
    forall a, b | 0 <= a < b < |ids| :: ids[a] != ids[b]
  }

  /** The keys are distinct, and an id is a key exactly when it has at least one location. */
  lemma {:induction false} TrackIdsKeys(locs: seq<GeoLocation>)
    ensures Distinct(TrackIds(locs))
    ensures forall id :: id in TrackIds(locs) <==> TrackOf(locs, id) != []
    ensures |TrackIds(locs)| <= |locs|
    ensures |TrackIds(locs)| == 0 <==> locs == []
  {
    if locs != [] {
      var init := locs[..|locs| - 1];
      TrackIdsKeys(init);
    }
  }

  /** A group holds exactly the locations with its id, each as often as in the input. */
  lemma {:induction false} TrackOfMembers(locs: seq<GeoLocation>, id: string)
    ensures forall x :: multiset(TrackOf(locs, id))[x] == if x.id == id then multiset(locs)[x] else 0
  {
    if locs != [] {
      var init := locs[..|locs| - 1];
      TrackOfMembers(init, id);
      assert locs == init + [locs[|locs| - 1]];
    }
  }

  /** Grouping a concatenation concatenates the groups, so each group keeps input order. */
  lemma {:induction false} TrackOfAppend(xs: seq<GeoLocation>, ys: seq<GeoLocation>, id: string)
    ensures TrackOf(xs + ys, id) == TrackOf(xs, id) + TrackOf(ys, id)
    decreases |ys|
  {
    if ys == [] {
      assert xs + ys == xs;
    } else {
      var init := ys[..|ys| - 1];
      TrackOfAppend(xs, init, id);
      var whole := xs + ys;
      assert whole[..|whole| - 1] == xs + init && whole[|whole| - 1] == ys[|ys| - 1];
    }
  }

  /** The total size of the groups of `ids`. */
  function GroupSizes(ids: seq<string>, locs: seq<GeoLocation>): nat
  {
    if ids == [] then 0 else GroupSizes(ids[..|ids| - 1], locs) + |TrackOf(locs, ids[|ids| - 1])|
  }

  lemma {:induction false} GroupSizesSnoc(ids: seq<string>, locs: seq<GeoLocation>, loc: GeoLocation)
    requires Distinct(ids)
    ensures GroupSizes(ids, locs + [loc]) == GroupSizes(ids, locs) + if loc.id in ids then 1 else 0
  {
    if ids != [] {
      var init := ids[..|ids| - 1];
      GroupSizesSnoc(init, locs, loc);
      assert (locs + [loc])[..|locs|] == locs;
      assert loc.id in ids <==> loc.id in init || loc.id == ids[|ids| - 1];
    }
  }

  /** The group sizes add up to the number of locations. */
  lemma {:induction false} GroupsCoverInput(locs: seq<GeoLocation>)
    ensures GroupSizes(TrackIds(locs), locs) == |locs|
  {
    if locs != [] {
      var init, loc := locs[..|locs| - 1], locs[|locs| - 1];
      GroupsCoverInput(init);
      TrackIdsKeys(init);
      assert locs == init + [loc];
      var ids := TrackIds(init);
      GroupSizesSnoc(ids, init, loc);
      if loc.id !in ids {
        TrackOfAbsent(init, loc.id);
        assert TrackIds(locs)[..|ids|] == ids;
      }
    }
  }
}
