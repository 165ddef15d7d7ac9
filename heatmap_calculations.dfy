/** The heatmap engine of src/utils/heatmap-calculations.ts: greedy seed-based clustering,
    cluster scoring, threshold-and-truncate grid building, the bounding-box filter and the
    summary statistics. Distances are in metres and abstracted as a `Distance` parameter. */
module HeatmapCalculations {
  import opened Types
  import opened Numbers
  import opened Constants

  // ---------------------------------------------------------------------------
  // clusterPoints, specified on indices into the input list
  // ---------------------------------------------------------------------------

  /** Every element of `idx` is an index into `ps`. */
  predicate Indices(ps: seq<GeoLocation>, idx: seq<nat>)
  {
    forall a | 0 <= a < |idx| :: idx[a] < |ps|
  }

  predicate Increasing(idx: seq<nat>)
  {
    forall a, b | 0 <= a < b < |idx| :: idx[a] < idx[b]
  }

  /** Point j joins the cluster seeded by point i: the test at line 42 (false for indices
      outside the list, which the source never forms). */
  predicate Near(ps: seq<GeoLocation>, d: Distance, threshold: real, i: nat, j: nat)
  {
    i < |ps| && j < |ps| && d(Position(ps[i]), Position(ps[j])) <= threshold
  }

  /** The indices in [lo, hi) not yet in the `processed` set, in increasing order. */
  function Pending(lo: nat, hi: nat, processed: set<nat>): seq<nat>
    decreases hi
  {
    if hi <= lo then [] else Pending(lo, hi - 1, processed) + (if hi - 1 in processed then [] else [hi - 1])
  }

  lemma {:induction false} PendingRange(lo: nat, hi: nat, processed: set<nat>)
    ensures forall a | 0 <= a < |Pending(lo, hi, processed)| ::
      lo <= Pending(lo, hi, processed)[a] < hi && Pending(lo, hi, processed)[a] !in processed
    decreases hi
  {
    if hi > lo { PendingRange(lo, hi - 1, processed); }
  }

  /** The members of `rem` that join the cluster seeded by `s`, in order. */
  function CloseTo(ps: seq<GeoLocation>, d: Distance, threshold: real, s: nat, rem: seq<nat>): (r: seq<nat>)
    ensures Indices(ps, r)
  {
    if rem == [] then []
    else
      var last := rem[|rem| - 1];
      CloseTo(ps, d, threshold, s, rem[..|rem| - 1]) + (if Near(ps, d, threshold, s, last) then [last] else [])
  }

  /** The members of `rem` that stay unprocessed after the cluster seeded by `s`, in order. */
  function FarFrom(ps: seq<GeoLocation>, d: Distance, threshold: real, s: nat, rem: seq<nat>): (r: seq<nat>)
    ensures |r| <= |rem|
    ensures forall a | 0 <= a < |r| :: r[a] in rem
  {
    if rem == [] then []
    else
      var last := rem[|rem| - 1];
      FarFrom(ps, d, threshold, s, rem[..|rem| - 1]) + (if Near(ps, d, threshold, s, last) then [] else [last])
  }

  /** The greedy clustering of the unprocessed indices `rem`: the first one seeds a cluster that
      takes every later index near the seed; the rest are clustered in turn. */
  function Greedy(ps: seq<GeoLocation>, d: Distance, threshold: real, rem: seq<nat>): (r: seq<seq<nat>>)
    requires Indices(ps, rem)
    ensures forall c | 0 <= c < |r| :: |r[c]| > 0 && Indices(ps, r[c])
    decreases |rem|
  {
    if rem == [] then []
    else
      var s, rest := rem[0], rem[1..];
      [[s] + CloseTo(ps, d, threshold, s, rest)] + Greedy(ps, d, threshold, FarFrom(ps, d, threshold, s, rest))
  }

  /** The index groups `clusterPoints(ps, threshold)` forms. */
  function ClusterIndices(ps: seq<GeoLocation>, d: Distance, threshold: real): (r: seq<seq<nat>>)
    ensures WellFormed(ps, r)
  {
    Greedy(ps, d, threshold, Upto(|ps|))
  }

  /** The points at the given indices, in that order. */
  function Gather(ps: seq<GeoLocation>, idx: seq<nat>): (r: seq<GeoLocation>)
    requires Indices(ps, idx)
    ensures |r| == |idx|
  {
    if idx == [] then [] else Gather(ps, idx[..|idx| - 1]) + [ps[idx[|idx| - 1]]]
  }

  /** The cluster object built at lines 26-32 for a finished group: centred on its seed,
      radius 0, intensity 0 and count 1 until it is scored. */
  function RawCluster(ps: seq<GeoLocation>, g: seq<nat>): ClusteredPoint
    requires |g| > 0 && Indices(ps, g)
  {
    ClusteredPoint(Position(ps[g[0]]), Gather(ps, g), 0.0, 0.0, 1)
  }

  /** Every group is a non-empty list of indices into `ps`. */
  predicate WellFormed(ps: seq<GeoLocation>, groups: seq<seq<nat>>)
  {
    forall c | 0 <= c < |groups| :: |groups[c]| > 0 && Indices(ps, groups[c])
  }

  function RawClusters(ps: seq<GeoLocation>, groups: seq<seq<nat>>): (r: seq<ClusteredPoint>)
    requires WellFormed(ps, groups)
    ensures |r| == |groups|
    ensures forall c | 0 <= c < |r| :: |r[c].points| > 0
  {
    if groups == [] then [] else RawClusters(ps, groups[..|groups| - 1]) + [RawCluster(ps, groups[|groups| - 1])]
  }

  /** The result of `clusterPoints(ps, threshold)`. */
  function Clusters(ps: seq<GeoLocation>, d: Distance, threshold: real): seq<ClusteredPoint>
  {
    RawClusters(ps, ClusterIndices(ps, d, threshold))
  }

  /** Marking an index outside [lo, hi) as processed leaves the pending indices of [lo, hi) alone. */
  lemma {:induction false} PendingIgnores(lo: nat, hi: nat, processed: set<nat>, x: nat)
    requires x < lo || hi <= x
    ensures Pending(lo, hi, processed + {x}) == Pending(lo, hi, processed)
    decreases hi
  {
    if hi > lo { PendingIgnores(lo, hi - 1, processed, x); }
  }

  lemma {:induction false} PendingFront(lo: nat, hi: nat, processed: set<nat>)
    requires lo < hi
    ensures Pending(lo, hi, processed) == (if lo in processed then [] else [lo]) + Pending(lo + 1, hi, processed)
    decreases hi
  {
    if hi > lo + 1 { PendingFront(lo, hi - 1, processed); }
  }

  lemma GreedyFront(ps: seq<GeoLocation>, d: Distance, threshold: real, s: nat, rest: seq<nat>)
    requires s < |ps| && Indices(ps, rest)
    ensures Indices(ps, [s] + rest)
    ensures Greedy(ps, d, threshold, [s] + rest)
         == [[s] + CloseTo(ps, d, threshold, s, rest)] + Greedy(ps, d, threshold, FarFrom(ps, d, threshold, s, rest))
  {
    assert ([s] + rest)[0] == s && ([s] + rest)[1..] == rest;
  }

  /** Appending the cluster seeded at i with the members `close` extends the cluster list by
      the cluster object of that group. */
  lemma RawClustersSnoc(ps: seq<GeoLocation>, groups: seq<seq<nat>>, i: nat, close: seq<nat>)
    requires WellFormed(ps, groups)
    requires i < |ps| && Indices(ps, close)
    ensures Indices(ps, [i] + close)
    ensures WellFormed(ps, groups + [[i] + close])
    ensures RawClusters(ps, groups + [[i] + close])
         == RawClusters(ps, groups) + [ClusteredPoint(Position(ps[i]), Gather(ps, [i] + close), 0.0, 0.0, 1)]
  {
    var g := [i] + close;
    assert g[0] == i;
    assert (groups + [g])[..|groups|] == groups;
  }

  lemma CloseFarSnoc(ps: seq<GeoLocation>, d: Distance, threshold: real, s: nat, rem: seq<nat>, x: nat)
    ensures CloseTo(ps, d, threshold, s, rem + [x])
         == CloseTo(ps, d, threshold, s, rem) + (if Near(ps, d, threshold, s, x) then [x] else [])
    ensures FarFrom(ps, d, threshold, s, rem + [x])
         == FarFrom(ps, d, threshold, s, rem) + (if Near(ps, d, threshold, s, x) then [] else [x])
  {
    assert (rem + [x])[..|rem|] == rem;
  }

  lemma {:induction false} GatherAt(ps: seq<GeoLocation>, idx: seq<nat>)
    requires Indices(ps, idx)
    ensures forall a | 0 <= a < |idx| :: Gather(ps, idx)[a] == ps[idx[a]]
  {
    if idx != [] { GatherAt(ps, idx[..|idx| - 1]); }
  }

  lemma GatherSnoc(ps: seq<GeoLocation>, idx: seq<nat>, x: nat)
    requires Indices(ps, idx) && x < |ps|
    ensures Indices(ps, idx + [x])
    ensures Gather(ps, idx + [x]) == Gather(ps, idx) + [ps[x]]
  {
    assert (idx + [x])[..|idx|] == idx;
  }

  /** Adding member j to the cluster seeded at i adds its point to the cluster's points. */
  lemma GatherGrow(ps: seq<GeoLocation>, i: nat, close: seq<nat>, j: nat)
    requires i < |ps| && j < |ps| && Indices(ps, close)
    ensures Indices(ps, [i] + close) && Indices(ps, [i] + (close + [j]))
    ensures Gather(ps, [i] + (close + [j])) == Gather(ps, [i] + close) + [ps[j]]
  {
    GatherSnoc(ps, [i] + close, j);
    assert [i] + (close + [j]) == ([i] + close) + [j];
  }

  /** What the inner loop of `clusterPoints` has achieved once it has looked at the indices
      below j: `close` holds the pending ones near seed i, and exactly the far ones are pending. */
  predicate Grown(ps: seq<GeoLocation>, d: Distance, threshold: real, i: nat, j: nat,
                  processed: set<nat>, processed': set<nat>, close: seq<nat>)
  {
    && close == CloseTo(ps, d, threshold, i, Pending(i + 1, j, processed))
    && Pending(i + 1, j, processed') == FarFrom(ps, d, threshold, i, Pending(i + 1, j, processed))
  }

  lemma GrowSkip(ps: seq<GeoLocation>, d: Distance, threshold: real, i: nat, j: nat,
                 processed: set<nat>, processed': set<nat>, close: seq<nat>)
    requires i < j && j in processed && processed <= processed'
    requires Grown(ps, d, threshold, i, j, processed, processed', close)
    ensures Grown(ps, d, threshold, i, j + 1, processed, processed', close)
  {
    assert j in processed';
    assert Pending(i + 1, j + 1, processed) == Pending(i + 1, j, processed) + [] == Pending(i + 1, j, processed);
    assert Pending(i + 1, j + 1, processed') == Pending(i + 1, j, processed') + [] == Pending(i + 1, j, processed');
  }

  lemma GrowVisit(ps: seq<GeoLocation>, d: Distance, threshold: real, i: nat, j: nat,
                  processed: set<nat>, processed': set<nat>, close: seq<nat>)
    requires i < j && j !in processed' && processed <= processed'
    requires Grown(ps, d, threshold, i, j, processed, processed', close)
    ensures Indices(ps, close)
    ensures Near(ps, d, threshold, i, j)
        ==> Grown(ps, d, threshold, i, j + 1, processed, processed' + {j}, close + [j])
    ensures !Near(ps, d, threshold, i, j)
        ==> Grown(ps, d, threshold, i, j + 1, processed, processed', close)
  {
    var seen := Pending(i + 1, j, processed);
    assert Pending(i + 1, j + 1, processed) == seen + [j];
    CloseFarSnoc(ps, d, threshold, i, seen, j);
    PendingIgnores(i + 1, j, processed', j);
    assert Pending(i + 1, j + 1, processed' + {j}) == Pending(i + 1, j, processed' + {j}) + [];
  }

  /** The inner loop of `clusterPoints` (lines 34-46): every later unprocessed point within
      `distance` of seed i joins the cluster and is marked processed. */
  method GrowCluster(ps: seq<GeoLocation>, d: Distance, distance: real, i: nat, processed: set<nat>)
    returns (members: seq<GeoLocation>, processed': set<nat>)
    requires i < |ps|
    ensures processed <= processed'
    ensures forall k | k in processed' && k !in processed :: i < k < |ps|
    ensures members == Gather(ps, [i] + CloseTo(ps, d, distance, i, Pending(i + 1, |ps|, processed)))
    ensures Pending(i + 1, |ps|, processed') == FarFrom(ps, d, distance, i, Pending(i + 1, |ps|, processed))
  {
    processed' := processed;
    ghost var close: seq<nat> := [];
    members := [ps[i]];
    for j := i + 1 to |ps|
      invariant processed <= processed'
      invariant forall k | k in processed' && k !in processed :: i < k < j
      invariant Grown(ps, d, distance, i, j, processed, processed', close)
      invariant members == Gather(ps, [i] + close)
    {
      if j in processed' {
        GrowSkip(ps, d, distance, i, j, processed, processed', close);
        continue;
      }
      GrowVisit(ps, d, distance, i, j, processed, processed', close);
      var dist := d(Position(ps[i]), Position(ps[j]));
      if dist <= distance {
        assert Near(ps, d, distance, i, j);
        GatherGrow(ps, i, close, j);
        members := members + [ps[j]];
        processed' := processed' + {j};
        close := close + [j];
      } else {
        assert !Near(ps, d, distance, i, j);
      }
    }
  }

  /** One pass of the outer loop of `clusterPoints` that seeds a cluster at i: the groups found
      so far plus the clustering of what is still pending stay the whole clustering. */
  lemma OuterStep(ps: seq<GeoLocation>, d: Distance, threshold: real, groups: seq<seq<nat>>,
                  all: seq<seq<nat>>, i: nat, before: set<nat>, after: set<nat>)
    requires i < |ps| && i !in before
    requires Indices(ps, Pending(i, |ps|, before))
    requires groups + Greedy(ps, d, threshold, Pending(i, |ps|, before)) == all
    requires Pending(i + 1, |ps|, after) == FarFrom(ps, d, threshold, i, Pending(i + 1, |ps|, before))
    ensures Indices(ps, Pending(i + 1, |ps|, after + {i}))
    ensures (groups + [[i] + CloseTo(ps, d, threshold, i, Pending(i + 1, |ps|, before))])
            + Greedy(ps, d, threshold, Pending(i + 1, |ps|, after + {i})) == all
  {
    var rest := Pending(i + 1, |ps|, before);
    var close := CloseTo(ps, d, threshold, i, rest);
    var next := Pending(i + 1, |ps|, after + {i});
    assert next == FarFrom(ps, d, threshold, i, rest) by {
      PendingIgnores(i + 1, |ps|, after, i);
    }
    assert Indices(ps, next) by {
      PendingRange(i + 1, |ps|, after + {i});
    }
    assert Indices(ps, rest) by {
      PendingRange(i + 1, |ps|, before);
    }
    assert Pending(i, |ps|, before) == [i] + rest by {
      PendingFront(i, |ps|, before);
    }
    GreedyFront(ps, d, threshold, i, rest);
    var tail := Greedy(ps, d, threshold, next);
    assert groups + ([[i] + close] + tail) == (groups + [[i] + close]) + tail;
  }

  /** A pass of the outer loop that skips an already processed index changes nothing. */
  lemma SkipStep(ps: seq<GeoLocation>, i: nat, processed: set<nat>)
    requires i < |ps| && i in processed
    ensures Indices(ps, Pending(i + 1, |ps|, processed))
    ensures Pending(i, |ps|, processed) == Pending(i + 1, |ps|, processed)
  {
    PendingRange(i + 1, |ps|, processed);
    PendingFront(i, |ps|, processed);
  }

  /** `clusterPoints` (lines 19-53), with the `processed` set and the outer index loop. */
  method ClusterPoints(ps: seq<GeoLocation>, d: Distance, distance: real) returns (clusters: seq<ClusteredPoint>)
    ensures clusters == Clusters(ps, d, distance)
  {
    var n: nat := |ps|;
    clusters := [];
    var processed: set<nat> := {};
    ghost var groups: seq<seq<nat>> := [];
    ghost var all := ClusterIndices(ps, d, distance);
    PendingRange(0, n, processed);
    UptoPending(n);
    for i: nat := 0 to n
      invariant Indices(ps, Pending(i, n, processed))
      invariant groups + Greedy(ps, d, distance, Pending(i, n, processed)) == all
      invariant WellFormed(ps, groups)
      invariant clusters == RawClusters(ps, groups)
    {
      if i in processed {
        SkipStep(ps, i, processed);
        continue;
      }
      ghost var close := CloseTo(ps, d, distance, i, Pending(i + 1, n, processed));
      ghost var before := processed;
      var members;
      members, processed := GrowCluster(ps, d, distance, i, processed);
      OuterStep(ps, d, distance, groups, all, i, before, processed);
      processed := processed + {i};
      RawClustersSnoc(ps, groups, i, close);
      groups := groups + [[i] + close];
      clusters := clusters + [ClusteredPoint(Position(ps[i]), members, 0.0, 0.0, 1)];
    }
    assert groups + [] == groups;
  }

  // ---------------------------------------------------------------------------
  // What the greedy clustering guarantees
  // ---------------------------------------------------------------------------

  /** The members of `rem` near seed `s`, and those far from it, are sub-lists of `rem`. */
  lemma {:induction false} CloseFarMembers(ps: seq<GeoLocation>, d: Distance, threshold: real, s: nat, rem: seq<nat>)
    ensures forall a | 0 <= a < |CloseTo(ps, d, threshold, s, rem)| ::
      CloseTo(ps, d, threshold, s, rem)[a] in rem && Near(ps, d, threshold, s, CloseTo(ps, d, threshold, s, rem)[a])
    ensures forall a | 0 <= a < |FarFrom(ps, d, threshold, s, rem)| ::
      FarFrom(ps, d, threshold, s, rem)[a] in rem && !Near(ps, d, threshold, s, FarFrom(ps, d, threshold, s, rem)[a])
    decreases |rem|
  {
    if rem != [] {
      var init := rem[..|rem| - 1];
      CloseFarMembers(ps, d, threshold, s, init);
      assert forall x | x in init :: x in rem;
    }
  }

  lemma IncreasingSnoc(xs: seq<nat>, x: nat)
    requires Increasing(xs)
    requires forall a | 0 <= a < |xs| :: xs[a] < x
    ensures Increasing(xs + [x])
  {
  }

  lemma IncreasingCons(x: nat, xs: seq<nat>)
    requires Increasing(xs)
    requires forall a | 0 <= a < |xs| :: x < xs[a]
    ensures Increasing([x] + xs)
  {
  }

  /** The tail of an increasing list is increasing and lies above its head. */
  lemma IncreasingTail(xs: seq<nat>)
    requires Increasing(xs) && xs != []
    ensures Increasing(xs[1..])
    ensures forall x | x in xs[1..] :: xs[0] < x
  {
    forall x | x in xs[1..] ensures xs[0] < x {
      var a :| 0 <= a < |xs[1..]| && xs[1..][a] == x;
      assert xs[a + 1] == x;
    }
  }

  /** Filtering an increasing list on nearness to a seed keeps it increasing. */
  lemma {:induction false} CloseFarIncreasing(ps: seq<GeoLocation>, d: Distance, threshold: real, s: nat, rem: seq<nat>)
    requires Increasing(rem)
    ensures Increasing(CloseTo(ps, d, threshold, s, rem))
    ensures Increasing(FarFrom(ps, d, threshold, s, rem))
    decreases |rem|
  {
    if rem != [] {
      var init, last := rem[..|rem| - 1], rem[|rem| - 1];
      var close, far := CloseTo(ps, d, threshold, s, init), FarFrom(ps, d, threshold, s, init);
      assert Increasing(init);
      CloseFarIncreasing(ps, d, threshold, s, init);
      CloseFarMembers(ps, d, threshold, s, init);
      assert forall x | x in init :: x < last;
      if Near(ps, d, threshold, s, last) {
        assert CloseTo(ps, d, threshold, s, rem) == close + [last];
        assert FarFrom(ps, d, threshold, s, rem) == far;
        IncreasingSnoc(close, last);
      } else {
        assert CloseTo(ps, d, threshold, s, rem) == close;
        assert FarFrom(ps, d, threshold, s, rem) == far + [last];
        IncreasingSnoc(far, last);
      }
    }
  }

  /** The near and the far members of `rem` together are exactly `rem`, counted with multiplicity. */
  lemma {:induction false} CloseFarSplit(ps: seq<GeoLocation>, d: Distance, threshold: real, s: nat, rem: seq<nat>)
    ensures multiset(CloseTo(ps, d, threshold, s, rem)) + multiset(FarFrom(ps, d, threshold, s, rem)) == multiset(rem)
    decreases |rem|
  {
    if rem != [] {
      var init, last := rem[..|rem| - 1], rem[|rem| - 1];
      CloseFarSplit(ps, d, threshold, s, init);
      assert rem == init + [last];
    }
  }

  /** The concatenation of a list of groups. */
  function Flatten(groups: seq<seq<nat>>): seq<nat>
  {
    if groups == [] then [] else groups[0] + Flatten(groups[1..])
  }

  /** The total number of members over a list of clusters. */
  function TotalMembers(clusters: seq<ClusteredPoint>): nat
  {
    if clusters == [] then 0 else TotalMembers(clusters[..|clusters| - 1]) + |clusters[|clusters| - 1].points|
  }

  /** The first group the greedy clustering forms, and the clustering of what it leaves. */
  lemma GreedyUnfold(ps: seq<GeoLocation>, d: Distance, threshold: real, rem: seq<nat>)
    requires Indices(ps, rem) && rem != []
    ensures Indices(ps, FarFrom(ps, d, threshold, rem[0], rem[1..]))
    ensures var g := Greedy(ps, d, threshold, rem);
      var tail := Greedy(ps, d, threshold, FarFrom(ps, d, threshold, rem[0], rem[1..]));
      && |g| == |tail| + 1
      && g[0] == [rem[0]] + CloseTo(ps, d, threshold, rem[0], rem[1..])
      && forall c | 1 <= c < |g| :: g[c] == tail[c - 1]
  {
  }

  /** The greedy clustering partitions `rem`: every index of `rem` lands in exactly as many
      groups as it occurs in `rem`, and there are no more groups than indices. */
  lemma {:induction false} GreedyPartition(ps: seq<GeoLocation>, d: Distance, threshold: real, rem: seq<nat>)
    requires Indices(ps, rem)
    ensures multiset(Flatten(Greedy(ps, d, threshold, rem))) == multiset(rem)
    ensures |Greedy(ps, d, threshold, rem)| <= |rem|
    decreases |rem|
  {
    if rem != [] {
      var s, rest := rem[0], rem[1..];
      var far := FarFrom(ps, d, threshold, s, rest);
      var g := Greedy(ps, d, threshold, rem);
      GreedyUnfold(ps, d, threshold, rem);
      GreedyPartition(ps, d, threshold, far);
      CloseFarSplit(ps, d, threshold, s, rest);
      assert g[1..] == Greedy(ps, d, threshold, far);
      assert Flatten(g) == g[0] + Flatten(g[1..]);
      assert rem == [s] + rest;
    }
  }

  /** Each group is increasing, starts with its seed, and every other member is near that seed. */
  lemma {:induction false} GreedyGroups(ps: seq<GeoLocation>, d: Distance, threshold: real, rem: seq<nat>)
    requires Indices(ps, rem) && Increasing(rem)
    ensures forall c | 0 <= c < |Greedy(ps, d, threshold, rem)| ::
      Increasing(Greedy(ps, d, threshold, rem)[c])
    ensures forall c, a | 0 <= c < |Greedy(ps, d, threshold, rem)| && 0 < a < |Greedy(ps, d, threshold, rem)[c]| ::
      Near(ps, d, threshold, Greedy(ps, d, threshold, rem)[c][0], Greedy(ps, d, threshold, rem)[c][a])
    decreases |rem|
  {
    if rem != [] {
      var s, rest := rem[0], rem[1..];
      var close, far := CloseTo(ps, d, threshold, s, rest), FarFrom(ps, d, threshold, s, rest);
      var g, tail := Greedy(ps, d, threshold, rem), Greedy(ps, d, threshold, far);
      GreedyUnfold(ps, d, threshold, rem);
      IncreasingTail(rem);
      CloseFarMembers(ps, d, threshold, s, rest);
      CloseFarIncreasing(ps, d, threshold, s, rest);
      GreedyGroups(ps, d, threshold, far);
      forall c | 0 <= c < |g|
        ensures Increasing(g[c])
        ensures forall a | 0 < a < |g[c]| :: Near(ps, d, threshold, g[c][0], g[c][a])
      {
        if c == 0 {
          assert forall a | 0 <= a < |close| :: s < close[a];
          IncreasingCons(s, close);
          assert forall a | 0 < a < |g[0]| :: g[0][a] == close[a - 1];
        } else {
          assert g[c] == tail[c - 1];
        }
      }
    }
  }

  /** Every member of a group comes from `rem`. */
  lemma {:induction false} GreedyMembers(ps: seq<GeoLocation>, d: Distance, threshold: real, rem: seq<nat>)
    requires Indices(ps, rem)
    ensures forall c, a | 0 <= c < |Greedy(ps, d, threshold, rem)| && 0 <= a < |Greedy(ps, d, threshold, rem)[c]| ::
      Greedy(ps, d, threshold, rem)[c][a] in rem
    decreases |rem|
  {
    if rem != [] {
      var s, rest := rem[0], rem[1..];
      var close, far := CloseTo(ps, d, threshold, s, rest), FarFrom(ps, d, threshold, s, rest);
      var g, tail := Greedy(ps, d, threshold, rem), Greedy(ps, d, threshold, far);
      GreedyUnfold(ps, d, threshold, rem);
      CloseFarMembers(ps, d, threshold, s, rest);
      GreedyMembers(ps, d, threshold, far);
      assert forall x | x in rest :: x in rem;
      forall c, a | 0 <= c < |g| && 0 <= a < |g[c]| ensures g[c][a] in rem {
        if c == 0 {
          if a > 0 { assert g[0][a] == close[a - 1]; }
        } else {
          assert g[c] == tail[c - 1];
        }
      }
    }
  }

  /** What the first seed leaves lies after it and is far from it. */
  lemma FarAfterSeed(ps: seq<GeoLocation>, d: Distance, threshold: real, rem: seq<nat>, x: nat)
    requires Increasing(rem) && rem != []
    requires x in FarFrom(ps, d, threshold, rem[0], rem[1..])
    ensures rem[0] < x && !Near(ps, d, threshold, rem[0], x)
  {
    var far := FarFrom(ps, d, threshold, rem[0], rem[1..]);
    CloseFarMembers(ps, d, threshold, rem[0], rem[1..]);
    IncreasingTail(rem);
    var k :| 0 <= k < |far| && far[k] == x;
  }

  /** The members of the groups after the first lie after the first seed and are far from it. */
  lemma AfterFirstGroup(ps: seq<GeoLocation>, d: Distance, threshold: real, rem: seq<nat>)
    requires Indices(ps, rem) && Increasing(rem) && rem != []
    ensures forall e, a | 0 < e < |Greedy(ps, d, threshold, rem)| && 0 <= a < |Greedy(ps, d, threshold, rem)[e]| ::
      rem[0] < Greedy(ps, d, threshold, rem)[e][a] && !Near(ps, d, threshold, rem[0], Greedy(ps, d, threshold, rem)[e][a])
  {
    var far := FarFrom(ps, d, threshold, rem[0], rem[1..]);
    var g, tail := Greedy(ps, d, threshold, rem), Greedy(ps, d, threshold, far);
    GreedyUnfold(ps, d, threshold, rem);
    GreedyMembers(ps, d, threshold, far);
    forall e, a | 0 < e < |g| && 0 <= a < |g[e]|
      ensures rem[0] < g[e][a] && !Near(ps, d, threshold, rem[0], g[e][a])
    {
      assert g[e] == tail[e - 1];
      FarAfterSeed(ps, d, threshold, rem, g[e][a]);
    }
  }

  /** Seeds come in increasing input order. */
  lemma {:induction false} GreedySeedOrder(ps: seq<GeoLocation>, d: Distance, threshold: real, rem: seq<nat>)
    requires Indices(ps, rem) && Increasing(rem)
    ensures forall c, e | 0 <= c < e < |Greedy(ps, d, threshold, rem)| ::
      Greedy(ps, d, threshold, rem)[c][0] < Greedy(ps, d, threshold, rem)[e][0]
    decreases |rem|
  {
    if rem != [] {
      var s, rest := rem[0], rem[1..];
      var far := FarFrom(ps, d, threshold, s, rest);
      var g, tail := Greedy(ps, d, threshold, rem), Greedy(ps, d, threshold, far);
      GreedyUnfold(ps, d, threshold, rem);
      IncreasingTail(rem);
      CloseFarIncreasing(ps, d, threshold, s, rest);
      GreedySeedOrder(ps, d, threshold, far);
      AfterFirstGroup(ps, d, threshold, rem);
      forall c, e | 0 <= c < e < |g| ensures g[c][0] < g[e][0] {
        if c > 0 { assert g[c] == tail[c - 1] && g[e] == tail[e - 1]; }
      }
    }
  }

  /** No member of a later group is near an earlier seed: a point joins only the first cluster
      whose seed it is near, and clusters never grow by chaining through their members. */
  lemma {:induction false} GreedyNoChaining(ps: seq<GeoLocation>, d: Distance, threshold: real, rem: seq<nat>)
    requires Indices(ps, rem) && Increasing(rem)
    ensures forall c, e, a | 0 <= c < e < |Greedy(ps, d, threshold, rem)| && 0 <= a < |Greedy(ps, d, threshold, rem)[e]| ::
      !Near(ps, d, threshold, Greedy(ps, d, threshold, rem)[c][0], Greedy(ps, d, threshold, rem)[e][a])
    decreases |rem|
  {
    if rem != [] {
      var s, rest := rem[0], rem[1..];
      var far := FarFrom(ps, d, threshold, s, rest);
      var g, tail := Greedy(ps, d, threshold, rem), Greedy(ps, d, threshold, far);
      GreedyUnfold(ps, d, threshold, rem);
      IncreasingTail(rem);
      CloseFarIncreasing(ps, d, threshold, s, rest);
      GreedyNoChaining(ps, d, threshold, far);
      AfterFirstGroup(ps, d, threshold, rem);
      forall c, e, a | 0 <= c < e < |g| && 0 <= a < |g[e]| ensures !Near(ps, d, threshold, g[c][0], g[e][a]) {
        if c > 0 { assert g[c] == tail[c - 1] && g[e] == tail[e - 1]; }
      }
    }
  }

  /** The indices 0, 1, ..., n - 1. */
  function Upto(n: nat): (r: seq<nat>)
    ensures |r| == n
    ensures forall a | 0 <= a < n :: r[a] == a
  {
    if n == 0 then [] else Upto(n - 1) + [n - 1]
  }

  lemma {:induction false} UptoPending(n: nat)
    ensures Pending(0, n, {}) == Upto(n)
  {
    if n > 0 { UptoPending(n - 1); }
  }

  lemma UptoIncreasing(n: nat)
    ensures Increasing(Upto(n))
  {
  }

  lemma {:induction false} UptoCount(n: nat)
    ensures forall k: nat :: multiset(Upto(n))[k] == if k < n then 1 else 0
  {
    if n > 0 {
      UptoCount(n - 1);
      assert Upto(n) == Upto(n - 1) + [n - 1];
    }
  }

  lemma {:induction false} FlattenSnoc(groups: seq<seq<nat>>, g: seq<nat>)
    ensures Flatten(groups + [g]) == Flatten(groups) + g
  {
    if groups != [] {
      FlattenSnoc(groups[1..], g);
      assert (groups + [g])[1..] == groups[1..] + [g];
    }
  }

  lemma WellFormedPrefix(ps: seq<GeoLocation>, groups: seq<seq<nat>>)
    requires WellFormed(ps, groups) && groups != []
    ensures WellFormed(ps, groups[..|groups| - 1])
    ensures RawClusters(ps, groups)
         == RawClusters(ps, groups[..|groups| - 1]) + [RawCluster(ps, groups[|groups| - 1])]
  {
    var init := groups[..|groups| - 1];
    assert forall c | 0 <= c < |init| :: init[c] == groups[c];
  }

  lemma {:induction false} RawClustersShape(ps: seq<GeoLocation>, groups: seq<seq<nat>>)
    requires WellFormed(ps, groups)
    ensures forall c | 0 <= c < |groups| :: RawClusters(ps, groups)[c] == RawCluster(ps, groups[c])
  {
    if groups != [] {
      var init := groups[..|groups| - 1];
      WellFormedPrefix(ps, groups);
      RawClustersShape(ps, init);
      var r, prefix := RawClusters(ps, groups), RawClusters(ps, init);
      forall c | 0 <= c < |groups| ensures r[c] == RawCluster(ps, groups[c]) {
        if c < |init| {
          assert r[c] == prefix[c] && groups[c] == init[c];
        }
      }
    }
  }

  lemma {:induction false} RawClustersMembers(ps: seq<GeoLocation>, groups: seq<seq<nat>>)
    requires WellFormed(ps, groups)
    ensures TotalMembers(RawClusters(ps, groups)) == |Flatten(groups)|
  {
    if groups != [] {
      var init, last := groups[..|groups| - 1], groups[|groups| - 1];
      WellFormedPrefix(ps, groups);
      RawClustersMembers(ps, init);
      FlattenSnoc(init, last);
      assert groups == init + [last];
      var r := RawClusters(ps, groups);
      assert r[..|r| - 1] == RawClusters(ps, init);
    }
  }

  /** `clusterPoints` partitions its input: each index 0 .. n-1 is a member of exactly one
      cluster, the cluster sizes add up to n, and there are at most n clusters. */
  lemma ClusterPartition(ps: seq<GeoLocation>, d: Distance, threshold: real)
    ensures forall k: nat :: multiset(Flatten(ClusterIndices(ps, d, threshold)))[k] == if k < |ps| then 1 else 0
    ensures TotalMembers(Clusters(ps, d, threshold)) == |ps|
    ensures |Clusters(ps, d, threshold)| <= |ps|
  {
    var groups := ClusterIndices(ps, d, threshold);
    var rem := Upto(|ps|);
    UptoCount(|ps|);
    GreedyPartition(ps, d, threshold, rem);
    assert |Flatten(groups)| == |multiset(Flatten(groups))| == |multiset(Upto(|ps|))| == |ps|;
    RawClustersShape(ps, groups);
    RawClustersMembers(ps, groups);
  }

  /** The shape of each cluster `clusterPoints` builds: its first member is its seed and its
      centre; every other member is within `threshold` of the seed (not merely of some other
      member) and comes later in the input; seeds appear in input order; and no member of a
      cluster is within `threshold` of the seed of an earlier cluster. */
  lemma ClusterShape(ps: seq<GeoLocation>, d: Distance, threshold: real)
    ensures |Clusters(ps, d, threshold)| == |ClusterIndices(ps, d, threshold)|
    ensures forall c | 0 <= c < |ClusterIndices(ps, d, threshold)| ::
      var g := ClusterIndices(ps, d, threshold)[c];
      && Increasing(g)
      && Clusters(ps, d, threshold)[c].points == Gather(ps, g)
      && Clusters(ps, d, threshold)[c].center == Position(ps[g[0]])
      && Clusters(ps, d, threshold)[c].count == 1
      && (forall a | 0 < a < |g| :: d(Position(ps[g[0]]), Position(ps[g[a]])) <= threshold)
    ensures forall c, e | 0 <= c < e < |ClusterIndices(ps, d, threshold)| ::
      ClusterIndices(ps, d, threshold)[c][0] < ClusterIndices(ps, d, threshold)[e][0]
    ensures forall c, e, a | 0 <= c < e < |ClusterIndices(ps, d, threshold)| && 0 <= a < |ClusterIndices(ps, d, threshold)[e]| ::
      var seed, p := ClusterIndices(ps, d, threshold)[c][0], ClusterIndices(ps, d, threshold)[e][a];
      d(Position(ps[seed]), Position(ps[p])) > threshold
  {
    var groups := ClusterIndices(ps, d, threshold);
    var rem := Upto(|ps|);
    UptoIncreasing(|ps|);
    GreedyGroups(ps, d, threshold, rem);
    GreedySeedOrder(ps, d, threshold, rem);
    GreedyNoChaining(ps, d, threshold, rem);
    RawClustersShape(ps, groups);
  }

  // ---------------------------------------------------------------------------
  // calculateClusterProperties
  // ---------------------------------------------------------------------------

  function Lats(pts: seq<GeoLocation>): (r: seq<real>)
    ensures |r| == |pts|
    ensures forall a | 0 <= a < |pts| :: r[a] == pts[a].lat
  {
    if pts == [] then [] else Lats(pts[..|pts| - 1]) + [pts[|pts| - 1].lat]
  }

  function Lngs(pts: seq<GeoLocation>): (r: seq<real>)
    ensures |r| == |pts|
    ensures forall a | 0 <= a < |pts| :: r[a] == pts[a].lng
  {
    if pts == [] then [] else Lngs(pts[..|pts| - 1]) + [pts[|pts| - 1].lng]
  }

  /** The running `Math.max(maxDistance, distance)` of lines 76-82, starting from 0: the
      largest distance from `center` to a member, or 0. */
  function MaxDistance(center: GeoPoint, pts: seq<GeoLocation>, d: Distance): (r: real)
    ensures r >= 0.0
    ensures forall a | 0 <= a < |pts| :: d(center, Position(pts[a])) <= r
    ensures r == 0.0 || exists a | 0 <= a < |pts| :: r == d(center, Position(pts[a]))
  {
    if pts == [] then 0.0
    else
      var init, last := pts[..|pts| - 1], pts[|pts| - 1];
      var m := MaxDistance(center, init, d);
      assert forall a | 0 <= a < |init| :: init[a] == pts[a];
      Max(m, d(center, Position(last)))
  }

  /** The scored cluster `calculateClusterProperties(c)` returns (lines 55-94). */
  function ClusterProperties(c: ClusteredPoint, d: Distance): (r: ClusteredPoint)
    requires |c.points| > 0
    ensures r.points == c.points
  {
    if |c.points| == 1 then
      c.(radius := CLUSTERING_DISTANCE, intensity := 1.0)
    else
      var n := |c.points| as real;
      var center := GeoPoint(Sum(Lats(c.points)) / n, Sum(Lngs(c.points)) / n);
      c.(center := center,
         radius := Max(MaxDistance(center, c.points, d) * 2.0, CLUSTERING_DISTANCE),
         intensity := Min(n / 10.0, 1.0),
         count := |c.points|)
  }

  /** One step of the loop that totals latitudes and longitudes. */
  lemma SumStep(pts: seq<GeoLocation>, k: nat)
    requires k < |pts|
    ensures Sum(Lats(pts[..k + 1])) == Sum(Lats(pts[..k])) + pts[k].lat
    ensures Sum(Lngs(pts[..k + 1])) == Sum(Lngs(pts[..k])) + pts[k].lng
  {
    assert pts[..k + 1][..k] == pts[..k];
  }

  /** One step of the loop that tracks the largest distance from the centre. */
  lemma FarthestStep(center: GeoPoint, pts: seq<GeoLocation>, d: Distance, k: nat)
    requires k < |pts|
    ensures MaxDistance(center, pts[..k + 1], d) == Max(MaxDistance(center, pts[..k], d), d(center, Position(pts[k])))
  {
    assert pts[..k + 1][..k] == pts[..k];
  }

  /** The first `forEach` of `calculateClusterProperties`: totals of the latitudes and longitudes. */
  method Totals(pts: seq<GeoLocation>) returns (totalLat: real, totalLng: real)
    ensures totalLat == Sum(Lats(pts)) && totalLng == Sum(Lngs(pts))
  {
    totalLat, totalLng := 0.0, 0.0;
    for k := 0 to |pts|
      invariant totalLat == Sum(Lats(pts[..k]))
      invariant totalLng == Sum(Lngs(pts[..k]))
    {
      SumStep(pts, k);
      totalLat := totalLat + pts[k].lat;
      totalLng := totalLng + pts[k].lng;
    }
    assert pts[..|pts|] == pts;
  }

  /** The second `forEach` of `calculateClusterProperties`: the largest distance from the centre
      to a member. */
  method Farthest(center: GeoPoint, pts: seq<GeoLocation>, d: Distance) returns (maxDistance: real)
    ensures maxDistance == MaxDistance(center, pts, d)
  {
    maxDistance := 0.0;
    for k := 0 to |pts|
      invariant maxDistance == MaxDistance(center, pts[..k], d)
    {
      FarthestStep(center, pts, d, k);
      maxDistance := Max(maxDistance, d(center, Position(pts[k])));
    }
    assert pts[..|pts|] == pts;
  }

  /** `calculateClusterProperties` with its two `forEach` accumulation loops. */
  method ScoreCluster(c: ClusteredPoint, d: Distance) returns (r: ClusteredPoint)
    requires |c.points| > 0
    ensures r == ClusterProperties(c, d)
  {
    var pts := c.points;
    if |pts| == 1 {
      return c.(radius := CLUSTERING_DISTANCE, intensity := 1.0);
    }
    var totalLat, totalLng := Totals(pts);
    var n := |pts| as real;
    var center := GeoPoint(totalLat / n, totalLng / n);
    var maxDistance := Farthest(center, pts, d);
    r := c.(center := center,
            radius := Max(maxDistance * 2.0, CLUSTERING_DISTANCE),
            intensity := Min(n / 10.0, 1.0),
            count := |pts|);
    ScoredFrom(c, d, center, maxDistance);
  }

  /** The loops' results determine the scored cluster. */
  lemma ScoredFrom(c: ClusteredPoint, d: Distance, center: GeoPoint, maxDistance: real)
    requires |c.points| >= 2
    requires center == GeoPoint(Sum(Lats(c.points)) / |c.points| as real, Sum(Lngs(c.points)) / |c.points| as real)
    requires maxDistance == MaxDistance(center, c.points, d)
    ensures ClusterProperties(c, d) == c.(center := center,
                                         radius := Max(maxDistance * 2.0, CLUSTERING_DISTANCE),
                                         intensity := Min(|c.points| as real / 10.0, 1.0),
                                         count := |c.points|)
  {
  }

  /** A cluster of one point keeps its centre and count and gets radius 50 and intensity 1. */
  lemma ScoredSingleton(c: ClusteredPoint, d: Distance)
    requires |c.points| == 1
    ensures ClusterProperties(c, d).center == c.center
    ensures ClusterProperties(c, d).radius == CLUSTERING_DISTANCE == 50.0
    ensures ClusterProperties(c, d).intensity == 1.0
    ensures ClusterProperties(c, d).count == c.count
  {
  }

  /** A cluster of n >= 2 points is centred on the mean latitude and longitude of its members,
      inside their bounding box; it counts n; its radius is twice the largest distance from that
      centre to a member, or 50 when that is less, and so is reached by a member unless it is 50;
      and its intensity is n/10 capped at 1. */
  lemma ScoredGroup(c: ClusteredPoint, d: Distance)
    requires |c.points| >= 2
    ensures var r := ClusterProperties(c, d);
      var n := |c.points| as real;
      && r.center == GeoPoint(Sum(Lats(c.points)) / n, Sum(Lngs(c.points)) / n)
      && r.radius == Max(2.0 * MaxDistance(r.center, c.points, d), CLUSTERING_DISTANCE)
      && (r.radius == CLUSTERING_DISTANCE || exists a | 0 <= a < |c.points| :: r.radius == 2.0 * d(r.center, Position(c.points[a])))
      && Smallest(Lats(c.points)) <= r.center.lat <= Largest(Lats(c.points))
      && Smallest(Lngs(c.points)) <= r.center.lng <= Largest(Lngs(c.points))
      && r.count == |c.points|
      && r.radius >= CLUSTERING_DISTANCE
      && (forall a | 0 <= a < |c.points| :: 2.0 * d(r.center, Position(c.points[a])) <= r.radius)
      && (|c.points| >= 10 ==> r.intensity == 1.0)
      && (|c.points| < 10 ==> r.intensity == |c.points| as real / 10.0)
  {
    var r := ClusterProperties(c, d);
    GroupShape(c, d);
    GroupRadius(c, d);
    RadiusFacts(r.center, c.points, d, r.radius);
    if r.radius != CLUSTERING_DISTANCE {
      var a :| 0 <= a < |c.points| && r.radius == 2.0 * d(r.center, Position(c.points[a]));
    }
    CenterInBox(c, d);
  }

  /** The centre of a cluster of several points lies inside the bounding box of its members. */
  lemma CenterInBox(c: ClusteredPoint, d: Distance)
    requires |c.points| >= 2
    ensures var r := ClusterProperties(c, d);
      && Smallest(Lats(c.points)) <= r.center.lat <= Largest(Lats(c.points))
      && Smallest(Lngs(c.points)) <= r.center.lng <= Largest(Lngs(c.points))
  {
    GroupShape(c, d);
    MeanBetween(Lats(c.points));
    MeanBetween(Lngs(c.points));
  }

  /** Unfolds `ClusterProperties` for a cluster of several points: its centre, count and intensity. */
  lemma GroupShape(c: ClusteredPoint, d: Distance)
    requires |c.points| >= 2
    ensures var r := ClusterProperties(c, d);
      var n := |c.points| as real;
      && r.center == GeoPoint(Sum(Lats(c.points)) / n, Sum(Lngs(c.points)) / n)
      && r.count == |c.points|
      && (|c.points| >= 10 ==> r.intensity == 1.0)
      && (|c.points| < 10 ==> r.intensity == |c.points| as real / 10.0)
  {
  }

  /** Unfolds `ClusterProperties` for a cluster of several points: its radius. */
  lemma GroupRadius(c: ClusteredPoint, d: Distance)
    requires |c.points| >= 2
    ensures var r := ClusterProperties(c, d);
      r.radius == Max(MaxDistance(r.center, c.points, d) * 2.0, CLUSTERING_DISTANCE)
  {
  }

  /** The radius a cluster of several points gets: twice the largest distance from the centre to
      a member, at least 50, reached by a member unless it is the floor of 50. */
  lemma RadiusFacts(center: GeoPoint, pts: seq<GeoLocation>, d: Distance, radius: real)
    requires radius == Max(MaxDistance(center, pts, d) * 2.0, CLUSTERING_DISTANCE)
    ensures radius == Max(2.0 * MaxDistance(center, pts, d), CLUSTERING_DISTANCE)
    ensures radius >= CLUSTERING_DISTANCE
    ensures forall a | 0 <= a < |pts| :: 2.0 * d(center, Position(pts[a])) <= radius
    ensures radius == CLUSTERING_DISTANCE || exists a | 0 <= a < |pts| :: radius == 2.0 * d(center, Position(pts[a]))
  {
    var m := MaxDistance(center, pts, d);
    if radius != CLUSTERING_DISTANCE {
      assert m != 0.0;
      var a :| 0 <= a < |pts| && m == d(center, Position(pts[a]));
      assert radius == 2.0 * d(center, Position(pts[a]));
    }
  }

  /** The clusters `clusterPoints` builds score with 0 < intensity <= 1, radius >= 50 and
      count = number of members; when the distance is a great-circle distance, every member
      lies within half the radius of the centre. */
  lemma ScoredBounds(c: ClusteredPoint, d: Distance)
    requires |c.points| > 0 && c.count == 1 && c.center == Position(c.points[0])
    ensures var r := ClusterProperties(c, d);
      && 0.0 < r.intensity <= 1.0
      && r.radius >= CLUSTERING_DISTANCE
      && r.count == |c.points|
      && (IsGreatCircle(d) ==> forall a | 0 <= a < |c.points| :: 2.0 * d(r.center, Position(c.points[a])) <= r.radius)
  {
    if |c.points| >= 2 { ScoredGroup(c, d); }
  }

  /** `clusters.map(calculateClusterProperties)` */
  function ScoreAll(clusters: seq<ClusteredPoint>, d: Distance): (r: seq<ClusteredPoint>)
    requires forall c | 0 <= c < |clusters| :: |clusters[c].points| > 0
    ensures |r| == |clusters|
    ensures forall c | 0 <= c < |clusters| :: r[c] == ClusterProperties(clusters[c], d)
  {
    if clusters == [] then []
    else
      var init := clusters[..|clusters| - 1];
      ScoreAll(init, d) + [ClusterProperties(clusters[|clusters| - 1], d)]
  }

  /** Scoring keeps every member: the scored clusters hold as many points as the raw ones. */
  lemma {:induction false} ScoredMembers(clusters: seq<ClusteredPoint>, d: Distance)
    requires forall c | 0 <= c < |clusters| :: |clusters[c].points| > 0
    ensures TotalMembers(ScoreAll(clusters, d)) == TotalMembers(clusters)
  {
    if clusters != [] {
      var init := clusters[..|clusters| - 1];
      ScoredMembers(init, d);
      var r := ScoreAll(clusters, d);
      assert r[..|r| - 1] == ScoreAll(init, d);
    }
  }

  /** The scored clusters of `clusterPoints(ps, threshold)`. */
  function ScoredClusters(ps: seq<GeoLocation>, d: Distance, threshold: real): (r: seq<ClusteredPoint>)
    ensures |r| == |Clusters(ps, d, threshold)|
  {
    ScoreAll(Clusters(ps, d, threshold), d)
  }

  /** The raw clusters of `clusterPoints` are centred on their first member with count 1. */
  lemma RawClusterFacts(ps: seq<GeoLocation>, d: Distance, threshold: real, c: nat)
    requires c < |Clusters(ps, d, threshold)|
    ensures var raw := Clusters(ps, d, threshold)[c];
      |raw.points| > 0 && raw.count == 1 && raw.center == Position(raw.points[0])
  {
    ClusterShape(ps, d, threshold);
    GatherAt(ps, ClusterIndices(ps, d, threshold)[c]);
  }

  /** Every scored cluster keeps the members its raw cluster had, has 0 < intensity <= 1,
      radius >= 50 and count = number of members, and covers its members within half its radius
      when the distance is a great-circle distance. */
  lemma ScoredClustersBounds(ps: seq<GeoLocation>, d: Distance, threshold: real)
    ensures forall c | 0 <= c < |ScoredClusters(ps, d, threshold)| ::
      var r := ScoredClusters(ps, d, threshold)[c];
      && r.points == Clusters(ps, d, threshold)[c].points
      && |r.points| > 0
      && 0.0 < r.intensity <= 1.0
      && r.radius >= CLUSTERING_DISTANCE
      && r.count == |r.points|
      && (IsGreatCircle(d) ==> forall a | 0 <= a < |r.points| :: 2.0 * d(r.center, Position(r.points[a])) <= r.radius)
  {
    var raw := Clusters(ps, d, threshold);
    var scored := ScoredClusters(ps, d, threshold);
    forall c | 0 <= c < |scored|
      ensures var r := scored[c];
        && r.points == raw[c].points && |r.points| > 0
        && 0.0 < r.intensity <= 1.0 && r.radius >= CLUSTERING_DISTANCE && r.count == |r.points|
        && (IsGreatCircle(d) ==> forall a | 0 <= a < |r.points| :: 2.0 * d(r.center, Position(r.points[a])) <= r.radius)
    {
      RawClusterFacts(ps, d, threshold, c);
      ScoredBounds(raw[c], d);
    }
  }

  // ---------------------------------------------------------------------------
  // createHeatmapGrid
  // ---------------------------------------------------------------------------

  /** `clusters.filter(cluster => cluster.intensity >= threshold)` */
  function KeepIntense(clusters: seq<ClusteredPoint>, threshold: real): (r: seq<ClusteredPoint>)
    ensures |r| <= |clusters|
  {
    if clusters == [] then []
    else
      var init, last := clusters[..|clusters| - 1], clusters[|clusters| - 1];
      KeepIntense(init, threshold) + (if last.intensity >= threshold then [last] else [])
  }

  /** A cluster survives the threshold filter exactly when it is one of the clusters and its
      intensity reaches the threshold. */
  lemma {:induction false} KeepIntenseMembers(clusters: seq<ClusteredPoint>, threshold: real)
    ensures forall x :: x in KeepIntense(clusters, threshold) <==> x in clusters && x.intensity >= threshold
  {
    if clusters != [] {
      var init, last := clusters[..|clusters| - 1], clusters[|clusters| - 1];
      KeepIntenseMembers(init, threshold);
      assert clusters == init + [last];
    }
  }

  /** The filter keeps input order: filtering a concatenation concatenates the filtered parts. */
  lemma {:induction false} KeepIntenseAppend(xs: seq<ClusteredPoint>, ys: seq<ClusteredPoint>, threshold: real)
    ensures KeepIntense(xs + ys, threshold) == KeepIntense(xs, threshold) + KeepIntense(ys, threshold)
    decreases |ys|
  {
    if ys != [] {
      var init, last := ys[..|ys| - 1], ys[|ys| - 1];
      KeepIntenseAppend(xs, init, threshold);
      var whole := xs + ys;
      assert whole[..|whole| - 1] == xs + init && whole[|whole| - 1] == last;
      assert ys[..|ys| - 1] == init;
    } else {
      assert xs + ys == xs;
    }
  }

  /** `xs.slice(0, end)` for an integer `end`: a negative end counts from the back. */
  function SliceTo<T>(xs: seq<T>, end: int): (r: seq<T>)
    ensures |r| <= |xs| && r == xs[..|r|]
    ensures 0 <= end <= |xs| ==> |r| == end
    ensures end >= |xs| ==> r == xs
    ensures end < 0 ==> |r| == if |xs| + end > 0 then |xs| + end else 0
  {
    if end >= |xs| then xs
    else if end >= 0 then xs[..end]
    else if |xs| + end > 0 then xs[..|xs| + end]
    else []
  }

  /** The heatmap point of a scored cluster (lines 106-112). */
  function ToHeatmapPoint(c: ClusteredPoint): (r: HeatmapPoint)
    ensures r.lat == c.center.lat && r.lng == c.center.lng
    ensures r.radius == c.radius && r.intensity == c.intensity && r.count == c.count
  {
    HeatmapPoint(c.center.lat, c.center.lng, c.radius, c.intensity, c.count)
  }

  function ToHeatmapPoints(cs: seq<ClusteredPoint>): (r: seq<HeatmapPoint>)
    ensures |r| == |cs|
    ensures forall a | 0 <= a < |cs| :: r[a] == ToHeatmapPoint(cs[a])
  {
    if cs == [] then [] else ToHeatmapPoints(cs[..|cs| - 1]) + [ToHeatmapPoint(cs[|cs| - 1])]
  }

  /** The scored clusters `createHeatmapGrid` keeps, before they become heatmap points: the
      clusters at threshold `gridSize * 1000` metres that reach the intensity threshold, cut to
      `maxPoints` (`.filter(...).slice(0, config.maxPoints)`). */
  function SelectClusters(scored: seq<ClusteredPoint>, config: HeatmapConfig): seq<ClusteredPoint>
  {
    SliceTo(KeepIntense(scored, config.intensityThreshold), config.maxPoints)
  }

  /** The clustering distance of line 100: the grid size scaled by 1000, in metres. */
  function ClusterThreshold(config: HeatmapConfig): real
  {
    config.gridSize * 1000.0
  }

  /** `createHeatmapGrid(points, config)` (lines 96-113): cluster at `gridSize * 1000` metres,
      score, select, and turn each selected cluster into a heatmap point. */
  function CreateHeatmapGrid(ps: seq<GeoLocation>, config: HeatmapConfig, d: Distance): seq<HeatmapPoint>
  {
    ToHeatmapPoints(SelectClusters(ScoredClusters(ps, d, ClusterThreshold(config)), config))
  }

  /** Selection keeps, in order, a prefix of the clusters that reach the intensity threshold:
      at most `maxPoints` of them when `maxPoints >= 0`, all of them when `maxPoints` is at
      least their number. */
  lemma SelectionBounds(scored: seq<ClusteredPoint>, config: HeatmapConfig)
    ensures var kept := KeepIntense(scored, config.intensityThreshold);
      var sel := SelectClusters(scored, config);
      && sel == kept[..|sel|]
      && (config.maxPoints >= 0 ==> |sel| <= config.maxPoints)
      && (config.maxPoints >= |kept| ==> sel == kept)
      && |sel| <= |scored|
  {
  }

  /** Every selected cluster is one of the scored clusters and reaches the threshold. */
  lemma SelectionMembers(scored: seq<ClusteredPoint>, config: HeatmapConfig)
    ensures forall a | 0 <= a < |SelectClusters(scored, config)| ::
      SelectClusters(scored, config)[a] in scored
      && SelectClusters(scored, config)[a].intensity >= config.intensityThreshold
  {
    var kept := KeepIntense(scored, config.intensityThreshold);
    var sel := SelectClusters(scored, config);
    KeepIntenseMembers(scored, config.intensityThreshold);
    assert forall a | 0 <= a < |sel| :: sel[a] == kept[a] && kept[a] in kept;
  }

  /** A heatmap point made from a selected cluster inherits its bounds and reaches the
      threshold. */
  lemma SelectedPoints(scored: seq<ClusteredPoint>, config: HeatmapConfig)
    requires forall c | 0 <= c < |scored| ::
      0.0 < scored[c].intensity <= 1.0 && scored[c].radius >= CLUSTERING_DISTANCE && scored[c].count >= 1
    ensures forall a | 0 <= a < |ToHeatmapPoints(SelectClusters(scored, config))| ::
      var h := ToHeatmapPoints(SelectClusters(scored, config))[a];
      && config.intensityThreshold <= h.intensity
      && 0.0 < h.intensity <= 1.0
      && h.radius >= CLUSTERING_DISTANCE
      && h.count >= 1
  {
    var sel := SelectClusters(scored, config);
    SelectionMembers(scored, config);
    forall a | 0 <= a < |sel|
      ensures 0.0 < sel[a].intensity <= 1.0 && sel[a].radius >= CLUSTERING_DISTANCE && sel[a].count >= 1
    {
      var c :| 0 <= c < |scored| && scored[c] == sel[a];
    }
  }

  /** The grid of `ps` has at most `maxPoints` points when `maxPoints >= 0`, and never more
      points than there are clusters. */
  lemma GridSize(ps: seq<GeoLocation>, config: HeatmapConfig, d: Distance)
    ensures config.maxPoints >= 0 ==> |CreateHeatmapGrid(ps, config, d)| <= config.maxPoints
    ensures |CreateHeatmapGrid(ps, config, d)| <= |Clusters(ps, d, ClusterThreshold(config))|
  {
    SelectionBounds(ScoredClusters(ps, d, ClusterThreshold(config)), config);
  }

  /** Every point of the grid of `ps` reaches the intensity threshold, has 0 < intensity <= 1,
      radius at least 50 and a positive count. */
  lemma GridPoints(ps: seq<GeoLocation>, config: HeatmapConfig, d: Distance)
    ensures forall a | 0 <= a < |CreateHeatmapGrid(ps, config, d)| ::
      var h := CreateHeatmapGrid(ps, config, d)[a];
      && config.intensityThreshold <= h.intensity
      && 0.0 < h.intensity <= 1.0
      && h.radius >= CLUSTERING_DISTANCE
      && h.count >= 1
  {
    var t := ClusterThreshold(config);
    var scored := ScoredClusters(ps, d, t);
    ScoredClustersBounds(ps, d, t);
    SelectedPoints(scored, config);
  }

  // ---------------------------------------------------------------------------
  // filterPointsByBounds
  // ---------------------------------------------------------------------------

  /** The inclusive bounding-box test of lines 119-124. */
  predicate InBounds(p: GeoLocation, b: Bounds)
  {
    b.south <= p.lat <= b.north && b.west <= p.lng <= b.east
  }

  /** `filterPointsByBounds(points, bounds)` (lines 115-125). */
  function FilterPointsByBounds(ps: seq<GeoLocation>, b: Bounds): (r: seq<GeoLocation>)
    ensures |r| <= |ps|
  {
    if ps == [] then []
    else
      var init, last := ps[..|ps| - 1], ps[|ps| - 1];
      FilterPointsByBounds(init, b) + (if InBounds(last, b) then [last] else [])
  }

  /** A point is kept exactly when it is inside the box, all four sides included. */
  lemma {:induction false} FilterBoundsMembers(ps: seq<GeoLocation>, b: Bounds)
    ensures forall p :: p in FilterPointsByBounds(ps, b) <==> p in ps && InBounds(p, b)
  {
    if ps != [] {
      var init, last := ps[..|ps| - 1], ps[|ps| - 1];
      FilterBoundsMembers(init, b);
      assert ps == init + [last];
    }
  }

  /** The filter keeps input order: filtering a concatenation concatenates the filtered parts. */
  lemma {:induction false} FilterBoundsAppend(xs: seq<GeoLocation>, ys: seq<GeoLocation>, b: Bounds)
    ensures FilterPointsByBounds(xs + ys, b) == FilterPointsByBounds(xs, b) + FilterPointsByBounds(ys, b)
    decreases |ys|
  {
    if ys != [] {
      var init, last := ys[..|ys| - 1], ys[|ys| - 1];
      FilterBoundsAppend(xs, init, b);
      var whole := xs + ys;
      assert whole[..|whole| - 1] == xs + init && whole[|whole| - 1] == last;
      assert ys[..|ys| - 1] == init;
    } else {
      assert xs + ys == xs;
    }
  }

  /** Filtering twice by the same box is filtering once. */
  lemma {:induction false} FilterBoundsIdempotent(ps: seq<GeoLocation>, b: Bounds)
    ensures FilterPointsByBounds(FilterPointsByBounds(ps, b), b) == FilterPointsByBounds(ps, b)
  {
    if ps != [] {
      var init, last := ps[..|ps| - 1], ps[|ps| - 1];
      FilterBoundsIdempotent(init, b);
      var once := FilterPointsByBounds(init, b);
      if InBounds(last, b) {
        FilterBoundsAppend(once, [last], b);
        assert FilterPointsByBounds([last], b) == [] + [last];
      } else {
        assert FilterPointsByBounds(ps, b) == once + [] == once;
      }
    }
  }

  // ---------------------------------------------------------------------------
  // calculateHeatmapStats
  // ---------------------------------------------------------------------------

  datatype HeatmapStats = HeatmapStats(
    totalPoints: int, totalIntensity: real, averageIntensity: real, maxIntensity: real, minIntensity: real)

  /** `heatmapPoints.map(p => p.intensity)` */
  function Intensities(hs: seq<HeatmapPoint>): (r: seq<real>)
    ensures |r| == |hs|
    ensures forall a | 0 <= a < |hs| :: r[a] == hs[a].intensity
  {
    if hs == [] then [] else Intensities(hs[..|hs| - 1]) + [hs[|hs| - 1].intensity]
  }

  /** `calculateHeatmapStats(heatmapPoints)` (lines 127-150). */
  function CalculateHeatmapStats(hs: seq<HeatmapPoint>): HeatmapStats
  {
    if |hs| == 0 then HeatmapStats(0, 0.0, 0.0, 0.0, 0.0)
    else
      var xs := Intensities(hs);
      HeatmapStats(|hs|, Sum(xs), Sum(xs) / |hs| as real, Largest(xs), Smallest(xs))
  }

  /** No points give all zeros; otherwise the count is the number of points, the total is the
      sum of their intensities and the average is that total over the count, the extremes are
      intensities of some point that bound all the others, and min <= average <= max. */
  lemma HeatmapStatsBounds(hs: seq<HeatmapPoint>)
    ensures hs == [] ==> CalculateHeatmapStats(hs) == HeatmapStats(0, 0.0, 0.0, 0.0, 0.0)
    ensures hs != [] ==>
      var st := CalculateHeatmapStats(hs);
      && st.totalPoints == |hs|
      && st.totalIntensity == Sum(Intensities(hs))
      && st.averageIntensity == st.totalIntensity / |hs| as real
      && st.minIntensity <= st.averageIntensity <= st.maxIntensity
      && (exists a | 0 <= a < |hs| :: hs[a].intensity == st.maxIntensity)
      && (exists a | 0 <= a < |hs| :: hs[a].intensity == st.minIntensity)
      && (forall a | 0 <= a < |hs| :: st.minIntensity <= hs[a].intensity <= st.maxIntensity)
  {
    if hs != [] {
      var xs := Intensities(hs);
      MeanBetween(xs);
      assert forall a | 0 <= a < |hs| :: xs[a] in xs;
    }
  }
}
