/** The nearest-centroid scan that `populate` runs for one point, as a specification. */
module Assignment {
  import opened Vectors

  /** The distance between a centroid and a point. It is a parameter of the model: none of
      the properties below depend on how it is computed. */
  type Distance = (Vector, Vector) -> real

  /** The state of the scan for one point: the cluster it is currently mapped to, the
      distance to that cluster's centroid, and every cluster the scan has moved it to (the
      clusters `populate` marks dirty for this point). */
  datatype Scan = Scan(cluster: int, distance: real, moves: set<int>)

  /** The scan over centroids j, j+1, ..., skipping the point's current cluster, moving the
      point whenever a centroid is strictly closer than the best distance so far. */
  function ScanFrom(dist: Distance, x: Vector, cents: seq<Vector>, j: nat, s: Scan): (r: Scan)
    ensures 0 <= s.cluster < |cents| ==> 0 <= r.cluster < |cents|
    decreases |cents| - j
  {
    if j >= |cents| then s
    else if j == s.cluster then ScanFrom(dist, x, cents, j + 1, s)
    else if dist(cents[j], x) < s.distance then
      ScanFrom(dist, x, cents, j + 1, Scan(j, dist(cents[j], x), s.moves + {j}))
    else ScanFrom(dist, x, cents, j + 1, s)
  }

  /** The whole scan for point x, currently in cluster m. */
  function Nearest(dist: Distance, x: Vector, cents: seq<Vector>, m: int): Scan
    requires 0 <= m < |cents|
  {
    ScanFrom(dist, x, cents, 0, Scan(m, dist(cents[m], x), {}))
  }

  /** What the partial scan keeps true, for a point that started in cluster m. */
  ghost predicate ScanInvariant(dist: Distance, x: Vector, cents: seq<Vector>, m: int, j: nat, s: Scan)
    requires 0 <= m < |cents|
  {
    j <= |cents| &&
    0 <= s.cluster < |cents| &&
    s.distance == dist(cents[s.cluster], x) &&
    (forall k :: 0 <= k < j ==> s.distance <= dist(cents[k], x)) &&
    (forall k :: k in s.moves ==> 0 <= k < |cents| && dist(cents[k], x) < dist(cents[m], x)) &&
    (s.cluster == m || s.cluster in s.moves)
  }

  lemma {:induction false} ScanFromKeeps(dist: Distance, x: Vector, cents: seq<Vector>, m: int, j: nat, s: Scan)
    requires 0 <= m < |cents|
    requires ScanInvariant(dist, x, cents, m, j, s)
    ensures ScanInvariant(dist, x, cents, m, |cents|, ScanFrom(dist, x, cents, j, s))
    ensures s.moves <= ScanFrom(dist, x, cents, j, s).moves
    decreases |cents| - j
  {
    if j < |cents| {
      if j == s.cluster || !(dist(cents[j], x) < s.distance) {
        ScanFromKeeps(dist, x, cents, m, j + 1, s);
      } else {
        ScanFromKeeps(dist, x, cents, m, j + 1, Scan(j, dist(cents[j], x), s.moves + {j}));
      }
    }
  }

  /** What the scan of `populate` achieves for one point x that starts in cluster m:
      it ends in a valid cluster whose centroid is at least as close as every centroid;
      every cluster it marks dirty is strictly closer than the point's original one; and the
      point keeps its cluster exactly when no centroid is strictly closer than its own,
      which is also exactly when nothing is marked dirty for it. */
  lemma NearestSpec(dist: Distance, x: Vector, cents: seq<Vector>, m: int)
    requires 0 <= m < |cents|
    ensures var r := Nearest(dist, x, cents, m);
      && 0 <= r.cluster < |cents|
      && r.distance == dist(cents[r.cluster], x)
      && (forall k :: 0 <= k < |cents| ==> r.distance <= dist(cents[k], x))
      && (forall k :: k in r.moves ==> 0 <= k < |cents| && dist(cents[k], x) < dist(cents[m], x))
      && (r.cluster != m ==> r.cluster in r.moves)
      && (r.cluster == m <==> r.moves == {})
      && (r.cluster == m <==> forall k :: 0 <= k < |cents| ==> !(dist(cents[k], x) < dist(cents[m], x)))
  {
    var s0 := Scan(m, dist(cents[m], x), {});
    ScanFromKeeps(dist, x, cents, m, 0, s0);
    var r := Nearest(dist, x, cents, m);
    forall k | k in r.moves
      ensures r.cluster != m
    {
    }
  }
}
