/** The k-means clusterer of km_para.c. The process-wide state of the C program (data set,
    centroid buffers, assignment map, dirty flags, `too_far`, `has_changed`) becomes the
    fields of one Clusterer object. Each parallel phase is modelled as the loop over worker
    chunks 0, 1, ..., nthreads-1 run one after the other: every worker writes a disjoint
    index range and the shared flags are only ever set, so this order gives the phase's
    result. */
module KMeans {
  import opened Partition
  import opened Random
  import A = Assignment
  import opened Vectors
  import C = Centroids

  // ---------------------------------------------------------------------------------
  // The initial assignment map, as a function of the generator state

  /** The assignment map after the seeding loop has run for clusters 0 .. c-1: every point
      starts unassigned (-1), and cluster i claims the point its random draw selects. */
  function SeededMap(s0: State, np: nat, c: nat): (m: seq<int>)
    requires np > 0
    ensures |m| == np
  {
    if c == 0 then seq(np, _ => -1)
    else SeededMap(s0, np, c - 1)[Draw(s0, c - 1) % np := c - 1]
  }

  /** The fill loop from point p on, with generator state s: every point still unassigned
      gets the next random draw modulo the number of clusters. */
  function Fill(m: seq<int>, s: State, nc: nat, p: nat): seq<int>
    requires nc > 0
    decreases |m| - p
  {
    if p >= |m| then m
    else if m[p] < 0 then Fill(m[p := Output(Step(s)) % nc], Step(s), nc, p + 1)
    else Fill(m, s, nc, p + 1)
  }

  /** The generator state the fill loop leaves behind, from point p on with state s. */
  function FillEnd(m: seq<int>, s: State, nc: nat, p: nat): State
    requires nc > 0
    decreases |m| - p
  {
    if p >= |m| then s
    else if m[p] < 0 then FillEnd(m[p := Output(Step(s)) % nc], Step(s), nc, p + 1)
    else FillEnd(m, s, nc, p + 1)
  }

  /** The number of unassigned points at index p or later. */
  function Unassigned(m: seq<int>, p: nat): nat
    decreases |m| - p
  {
    if p >= |m| then 0 else (if m[p] < 0 then 1 else 0) + Unassigned(m, p + 1)
  }

  /** Changing an entry before q does not change the count from q on. */
  lemma {:induction false} UnassignedAfter(m: seq<int>, p: nat, q: nat, v: int)
    requires p < q && p < |m|
    ensures Unassigned(m[p := v], q) == Unassigned(m, q)
    decreases |m| - q
  {
    if q < |m| {
      UnassignedAfter(m, p, q + 1, v);
    }
  }

  /** The fill loop from point p on draws exactly one number per point still unassigned. */
  lemma {:induction false} FillEndSpec(m: seq<int>, s: State, nc: nat, p: nat)
    requires nc > 0
    ensures FillEnd(m, s, nc, p) == StateAfter(s, Unassigned(m, p))
    decreases |m| - p
  {
    if p < |m| {
      if m[p] < 0 {
        FillEndSpec(m[p := Output(Step(s)) % nc], Step(s), nc, p + 1);
        UnassignedAfter(m, p, p + 1, Output(Step(s)) % nc);
        StateAfterAdd(s, 1, Unassigned(m, p + 1));
      } else {
        FillEndSpec(m, s, nc, p + 1);
      }
    }
  }

  /** The assignment map the prologue of `kmeans` builds from generator state s0. */
  function InitialMap(s0: State, np: nat, nc: nat): seq<int>
    requires np > 0 && nc > 0
  {
    Fill(SeededMap(s0, np, nc), StateAfter(s0, nc), nc, 0)
  }

  /** After seeding clusters 0 .. c-1, each point is unassigned or claimed by a cluster
      seeded from it, and the point of every seeded cluster i is claimed by i or by a later
      cluster that drew the same point. */
  lemma {:induction false} SeededMapSpec(s0: State, np: nat, c: nat)
    requires np > 0
    ensures forall p :: 0 <= p < np ==>
      SeededMap(s0, np, c)[p] == -1 ||
      (0 <= SeededMap(s0, np, c)[p] < c && Draw(s0, SeededMap(s0, np, c)[p]) % np == p)
    ensures forall i :: 0 <= i < c ==> i <= SeededMap(s0, np, c)[Draw(s0, i) % np] < c
  {
    if c > 0 {
      SeededMapSpec(s0, np, c - 1);
    }
  }

  /** The fill loop changes only unassigned points at index p or later, and gives each of
      them a cluster in [0, nc). */
  lemma {:induction false} FillSpec(m: seq<int>, s: State, nc: nat, p: nat)
    requires nc > 0
    ensures |Fill(m, s, nc, p)| == |m|
    ensures forall q :: 0 <= q < |m| && (q < p || m[q] >= 0) ==> Fill(m, s, nc, p)[q] == m[q]
    ensures forall q :: p <= q < |m| && m[q] < 0 ==> 0 <= Fill(m, s, nc, p)[q] < nc
    decreases |m| - p
  {
    if p < |m| {
      if m[p] < 0 {
        FillSpec(m[p := Output(Step(s)) % nc], Step(s), nc, p + 1);
      } else {
        FillSpec(m, s, nc, p + 1);
      }
    }
  }

  /** The initial map sends every point to a cluster in [0, nc), and the point every
      cluster i was seeded from belongs to a cluster seeded from that same point: i itself
      or a later cluster whose draw selected it again. */
  lemma InitialMapSpec(s0: State, np: nat, nc: nat)
    requires np > 0 && nc > 0
    ensures |InitialMap(s0, np, nc)| == np
    ensures forall p :: 0 <= p < np ==> 0 <= InitialMap(s0, np, nc)[p] < nc
    ensures forall i :: 0 <= i < nc ==>
      var p := Draw(s0, i) % np;
      i <= InitialMap(s0, np, nc)[p] < nc && Draw(s0, InitialMap(s0, np, nc)[p]) % np == p
  {
    SeededMapSpec(s0, np, nc);
    FillSpec(SeededMap(s0, np, nc), StateAfter(s0, nc), nc, 0);
  }

  // ---------------------------------------------------------------------------------
  // The clustering context

  /** The clustering state between rounds, as values: the assignment map, the centroids,
      the dirty flags, and `too_far && has_changed`, the condition the round loop tests. */
  datatype Snapshot = Snapshot(clusterOf: seq<int>, cents: seq<Vector>, dirty: seq<bool>, again: bool)

  class Clusterer {
    const npoints: nat
    const dimension: nat
    const ncentroids: nat
    const mindistance: real
    const nthreads: nat
    /** The data set; read-only while clustering. */
    const data: seq<Vector>
    /** `v_distance`, as a parameter. */
    const dist: A.Distance
    /** The generator words `randum_w`/`randum_z`. */
    const rng: Generator
    const clusterOf: array<int>
    const dirty: array<bool>
    const centroids: array<Vector>
    var tooFar: bool
    var hasChanged: bool

    /** What the fixed parameters and buffer sizes of `kmeans` guarantee. */
    ghost predicate Static()
    {
      1 <= npoints && 1 <= ncentroids && 1 <= nthreads &&
      |data| == npoints == clusterOf.Length &&
      dirty.Length == ncentroids == centroids.Length &&
      Uniform(data, dimension)
    }

    ghost predicate Valid()
      reads centroids
    {
      Static() && (forall c :: 0 <= c < ncentroids ==> |centroids[c]| == dimension)
    }

    /** Every entry of m names a cluster. */
    ghost predicate InRange(m: seq<int>)
    {
      forall p :: 0 <= p < |m| ==> 0 <= m[p] < ncentroids
    }

    /** cents is a row of centroids and m an assignment map of the right sizes. */
    ghost predicate Fits(cents: seq<Vector>, m: seq<int>)
    {
      |cents| == ncentroids && |m| == npoints && InRange(m)
    }

    /** The scan `populate` runs for point p when the centroids are cents and the map is m. */
    ghost function ScanOf(cents: seq<Vector>, m: seq<int>, p: int): A.Scan
      requires Static() && Fits(cents, m) && 0 <= p < npoints
    {
      A.Nearest(dist, data[p], cents, m[p])
    }

    /** Some point in [lo, hi) is moved to cluster c by its scan. */
    ghost predicate MovedInto(cents: seq<Vector>, m: seq<int>, c: int, lo: int, hi: int)
      requires Static() && Fits(cents, m) && 0 <= lo && hi <= npoints
    {
      exists p :: lo <= p < hi && c in ScanOf(cents, m, p).moves
    }

    /** Some point in [lo, hi) ends its scan farther than `mindistance` from its centroid. */
    ghost predicate FarIn(cents: seq<Vector>, m: seq<int>, lo: int, hi: int)
      requires Static() && Fits(cents, m) && 0 <= lo && hi <= npoints
    {
      exists p :: lo <= p < hi && ScanOf(cents, m, p).distance > mindistance
    }

    /** st holds a map into the clusters and one `dimension`-row and one flag per cluster. */
    ghost predicate Shaped(st: Snapshot)
    {
      Fits(st.cents, st.clusterOf) && |st.dirty| == ncentroids &&
      (forall c :: 0 <= c < ncentroids ==> |st.cents[c]| == dimension)
    }

    /** The map `_populate` leaves: every point takes its scan's cluster against st. */
    ghost function Reassigned(st: Snapshot): (m: seq<int>)
      requires Static() && Shaped(st)
      ensures |m| == npoints && InRange(m)
    {
      seq(npoints, p requires 0 <= p < npoints => ScanOf(st.cents, st.clusterOf, p).cluster)
    }

    /** The dirty flags `_populate` leaves: a cluster is dirty if it was, or if some point
        moved to it. */
    ghost function Marked(st: Snapshot): (d: seq<bool>)
      requires Static() && Shaped(st)
      ensures |d| == ncentroids
    {
      seq(ncentroids, c requires 0 <= c < ncentroids =>
        st.dirty[c] || MovedInto(st.cents, st.clusterOf, c, 0, npoints))
    }

    /** The centroids `_compute_centroids` leaves: every dirty cluster gets the centroid of
        its members under map m, the others keep theirs. */
    ghost function Recentred(cents: seq<Vector>, m: seq<int>, d: seq<bool>): (r: seq<Vector>)
      requires Static() && |cents| == |d| == ncentroids && |m| == npoints
      requires forall c :: 0 <= c < ncentroids ==> |cents[c]| == dimension
      ensures |r| == ncentroids && forall c :: 0 <= c < ncentroids ==> |r[c]| == dimension
    {
      seq(ncentroids, c requires 0 <= c < ncentroids =>
        if d[c] then C.Recomputed(data, m, c, dimension) else cents[c])
    }

    /** One round of the loop in `kmeans`, on values: `_populate` then `_compute_centroids`,
        after which every flag is clear. The loop goes on when some point ended too far from
        its centroid and some cluster was dirty. The worker count does not appear. */
    ghost function Round(st: Snapshot): (r: Snapshot)
      requires Static() && Shaped(st)
      ensures Shaped(r)
    {
      var d := Marked(st);
      Snapshot(Reassigned(st), Recentred(st.cents, Reassigned(st), d), seq(ncentroids, _ => false),
        FarIn(st.cents, st.clusterOf, 0, npoints) && exists c :: 0 <= c < ncentroids && d[c])
    }

    /** After a round every point is in a cluster whose old centroid is at least as close as
        every old centroid, and a cluster is recomputed only if it was dirty or some point
        moved to it. */
    lemma RoundNearest(st: Snapshot)
      requires Static() && Shaped(st)
      ensures forall p, k :: 0 <= p < npoints && 0 <= k < ncentroids ==>
        dist(st.cents[Round(st).clusterOf[p]], data[p]) <= dist(st.cents[k], data[p])
      ensures forall c :: 0 <= c < ncentroids && Round(st).cents[c] != st.cents[c] ==>
        st.dirty[c] || exists p :: 0 <= p < npoints && c in ScanOf(st.cents, st.clusterOf, p).moves
    {
      forall p | 0 <= p < npoints
        ensures forall k :: 0 <= k < ncentroids ==>
          dist(st.cents[Round(st).clusterOf[p]], data[p]) <= dist(st.cents[k], data[p])
      {
        A.NearestSpec(dist, data[p], st.cents, st.clusterOf[p]);
      }
    }

    /** A converged state is a fixed point: when no cluster is dirty and no point has a
        strictly closer centroid than its own, a round changes neither the map nor the
        centroids, and the loop stops. */
    lemma RoundStable(st: Snapshot)
      requires Static() && Shaped(st)
      requires forall c :: 0 <= c < ncentroids ==> !st.dirty[c]
      requires forall p, k :: 0 <= p < npoints && 0 <= k < ncentroids ==>
        !(dist(st.cents[k], data[p]) < dist(st.cents[st.clusterOf[p]], data[p]))
      ensures Round(st).clusterOf == st.clusterOf && Round(st).cents == st.cents
      ensures !Round(st).again
    {
      forall p | 0 <= p < npoints
        ensures ScanOf(st.cents, st.clusterOf, p).cluster == st.clusterOf[p]
        ensures ScanOf(st.cents, st.clusterOf, p).moves == {}
      {
        A.NearestSpec(dist, data[p], st.cents, st.clusterOf[p]);
      }
      assert Reassigned(st) == st.clusterOf;
      assert Marked(st) == seq(ncentroids, _ => false);
    }

    /** k rounds from st. */
    ghost function Rounds(st: Snapshot, k: nat): (r: Snapshot)
      requires Static() && Shaped(st)
      ensures Shaped(r)
    {
      if k == 0 then st else Round(Rounds(st, k - 1))
    }

    /** trace lists the states of a run of the round loop: each entry is one round after
        the previous one, and the loop condition held after every round but the last. */
    ghost predicate Traced(trace: seq<Snapshot>)
    {
      Static() && |trace| >= 1 && (forall j :: 0 <= j < |trace| ==> Shaped(trace[j])) &&
      (forall j :: 0 <= j < |trace| - 1 ==> trace[j + 1] == Round(trace[j])) &&
      (forall j :: 1 <= j < |trace| - 1 ==> trace[j].again)
    }

    /** A trace grows by one round after a state where the loop condition held. */
    lemma TracedExtend(trace: seq<Snapshot>, next: Snapshot)
      requires Traced(trace) && trace[|trace| - 1].again
      requires next == Round(trace[|trace| - 1])
      ensures Traced(trace + [next])
    {
    }

    lemma {:induction false} TracedRounds(trace: seq<Snapshot>)
      requires Traced(trace)
      ensures forall j :: 0 <= j < |trace| ==> trace[j] == Rounds(trace[0], j)
    {
      if |trace| > 1 {
        TracedRounds(trace[..|trace| - 1]);
      }
    }

    /** The state the prologue leaves from generator state s0: the initial map, centroid i
        at the point of draw i, every cluster dirty, and both flags clear. */
    ghost function Start(s0: State): (r: Snapshot)
      requires Static()
      ensures Shaped(r)
    {
      InitialMapSpec(s0, npoints, ncentroids);
      Snapshot(InitialMap(s0, npoints, ncentroids),
        seq(ncentroids, c requires 0 <= c < ncentroids => data[Draw(s0, c) % npoints]),
        seq(ncentroids, _ => true), false)
    }

    /** The clustering state held in the buffers and flags. */
    ghost function Contents(): Snapshot
      reads this, clusterOf, centroids, dirty
    {
      Snapshot(clusterOf[..], centroids[..], dirty[..], tooFar && hasChanged)
    }

    /** Allocation of the buffers `kmeans` works on; the generator is the one the caller
        seeded and drew the data set from. */
    constructor (npoints: nat, dimension: nat, ncentroids: nat, mindistance: real, nthreads: nat,
                 data: seq<Vector>, dist: A.Distance, rng: Generator)
      requires 1 <= npoints && 1 <= ncentroids && 1 <= nthreads
      requires |data| == npoints && Uniform(data, dimension)
      ensures Valid() && fresh(clusterOf) && fresh(dirty) && fresh(centroids)
      ensures this.npoints == npoints && this.dimension == dimension && this.ncentroids == ncentroids
      ensures this.mindistance == mindistance && this.nthreads == nthreads
      ensures this.data == data && this.dist == dist && this.rng == rng
    {
      this.npoints := npoints;
      this.dimension := dimension;
      this.ncentroids := ncentroids;
      this.mindistance := mindistance;
      this.nthreads := nthreads;
      this.data := data;
      this.dist := dist;
      this.rng := rng;
      clusterOf := new int[npoints](_ => 0);
      dirty := new bool[ncentroids](_ => false);
      centroids := new Vector[ncentroids](_ => Zero(dimension));
      tooFar, hasChanged := false, false;
    }

    /** The prologue of `kmeans`: clear the flags, mark every point unassigned, seed each
        centroid from a randomly drawn point (which joins that cluster) and mark it dirty,
        then give every point still unassigned a random cluster. The generator ends one
        draw per cluster and one per point left unassigned after the seeding further on. */
    method Init()
      requires Valid()
      modifies clusterOf, dirty, centroids, rng, this`tooFar, this`hasChanged
      ensures Valid() && InRange(clusterOf[..])
      ensures !tooFar && !hasChanged
      ensures clusterOf[..] == InitialMap(old(rng.Current()), npoints, ncentroids)
      ensures rng.Current() ==
        StateAfter(old(rng.Current()), ncentroids + Unassigned(SeededMap(old(rng.Current()), npoints, ncentroids), 0))
      ensures forall c :: 0 <= c < ncentroids ==> dirty[c]
      ensures forall c :: 0 <= c < ncentroids ==> centroids[c] == data[Draw(old(rng.Current()), c) % npoints]
    {
      tooFar, hasChanged := false, false;
      ghost var s0 := rng.Current();
      Unassign();
      SeedCentroids();
      ghost var seeded := clusterOf[..];
      FillUnassigned();
      InitialMapSpec(s0, npoints, ncentroids);
      FillEndSpec(seeded, StateAfter(s0, ncentroids), ncentroids, 0);
      StateAfterAdd(s0, ncentroids, Unassigned(seeded, 0));
    }

    /** The first loop of the prologue: every point is marked unassigned (-1). */
    method Unassign()
      requires Valid()
      modifies clusterOf
      ensures forall p :: 0 <= p < npoints ==> clusterOf[p] == -1
    {
      var i := 0;
      while i < npoints
        invariant 0 <= i <= npoints
        invariant forall p :: 0 <= p < i ==> clusterOf[p] == -1
      {
        clusterOf[i] := -1;
        i := i + 1;
      }
    }

    /** The seeding loop of the prologue: cluster i is marked dirty, takes the point of
        draw i as its centroid, and claims that point. */
    method SeedCentroids()
      requires Valid() && forall p :: 0 <= p < npoints ==> clusterOf[p] == -1
      modifies clusterOf, dirty, centroids, rng
      ensures Valid()
      ensures rng.Current() == StateAfter(old(rng.Current()), ncentroids)
      ensures clusterOf[..] == SeededMap(old(rng.Current()), npoints, ncentroids)
      ensures forall c :: 0 <= c < ncentroids ==>
        dirty[c] && centroids[c] == data[Draw(old(rng.Current()), c) % npoints]
    {
      ghost var s0 := rng.Current();
      assert clusterOf[..] == SeededMap(s0, npoints, 0);
      var i := 0;
      while i < ncentroids
        invariant 0 <= i <= ncentroids
        invariant Valid()
        invariant rng.Current() == StateAfter(s0, i)
        invariant clusterOf[..] == SeededMap(s0, npoints, i)
        invariant forall c :: 0 <= c < i ==> dirty[c] && centroids[c] == data[Draw(s0, c) % npoints]
      {
        dirty[i] := true;
        var r := rng.Next();
        var j := r % npoints;
        centroids[i] := data[j];
        clusterOf[j] := i;
        i := i + 1;
      }
    }

    /** The last loop of the prologue: every point still unassigned gets the next draw
        modulo the number of clusters. */
    method FillUnassigned()
      requires Valid() && clusterOf.Length == npoints
      modifies clusterOf, rng
      ensures clusterOf[..] == Fill(old(clusterOf[..]), old(rng.Current()), ncentroids, 0)
      ensures rng.Current() == FillEnd(old(clusterOf[..]), old(rng.Current()), ncentroids, 0)
    {
      ghost var m0, s0 := clusterOf[..], rng.Current();
      var i := 0;
      while i < npoints
        invariant 0 <= i <= npoints
        invariant Fill(clusterOf[..], rng.Current(), ncentroids, i) == Fill(m0, s0, ncentroids, 0)
        invariant FillEnd(clusterOf[..], rng.Current(), ncentroids, i) == FillEnd(m0, s0, ncentroids, 0)
      {
        if clusterOf[i] < 0 {
          var r := rng.Next();
          clusterOf[i] := r % ncentroids;
        }
        i := i + 1;
      }
    }

    /** The body of `populate` for one point i: starting from the distance to its own
        centroid, compare every other centroid in index order and move the point whenever
        one is strictly closer, marking that cluster dirty. Returns the final distance.
        Only entry i of the map changes. */
    method ScanPoint(i: int) returns (distance: real)
      requires Valid() && InRange(clusterOf[..]) && 0 <= i < npoints
      modifies clusterOf, dirty
      ensures InRange(clusterOf[..])
      ensures clusterOf[..] == old(clusterOf[..])[i := ScanOf(centroids[..], old(clusterOf[..]), i).cluster]
      ensures distance == ScanOf(centroids[..], old(clusterOf[..]), i).distance
      ensures forall c :: 0 <= c < ncentroids ==>
        dirty[c] == (old(dirty[c]) || c in ScanOf(centroids[..], old(clusterOf[..]), i).moves)
    {
      ghost var m0 := clusterOf[..];
      A.NearestSpec(dist, data[i], centroids[..], m0[i]);
      distance := dist(centroids[clusterOf[i]], data[i]);
      ghost var sc := A.Scan(clusterOf[i], distance, {});
      var j := 0;
      while j < ncentroids
        modifies clusterOf, dirty
        invariant 0 <= j <= ncentroids
        invariant 0 <= sc.cluster < ncentroids
        invariant clusterOf[..] == m0[i := sc.cluster] && distance == sc.distance
        invariant A.ScanFrom(dist, data[i], centroids[..], j, sc) == ScanOf(centroids[..], m0, i)
        invariant forall c :: 0 <= c < ncentroids ==> dirty[c] == (old(dirty[c]) || c in sc.moves)
      {
        if j != clusterOf[i] {
          var tmp := dist(centroids[j], data[i]);
          if tmp < distance {
            clusterOf[i] := j;
            distance := tmp;
            dirty[j] := true;
            sc := A.Scan(j, tmp, sc.moves + {j});
          }
        }
        j := j + 1;
      }
    }

    /** `populate` for the points [s, e): each point runs the nearest-centroid scan, the
        clusters it is moved to are marked dirty, and `too_far` is set if it ends farther
        than `mindistance` from its centroid. Nothing else changes. */
    method Populate(s: int, e: int)
      requires Valid() && InRange(clusterOf[..])
      requires 0 <= s <= e <= npoints
      modifies clusterOf, dirty, this`tooFar
      ensures InRange(clusterOf[..])
      ensures forall p :: 0 <= p < npoints ==>
        clusterOf[p] == if s <= p < e then ScanOf(centroids[..], old(clusterOf[..]), p).cluster else old(clusterOf[p])
      ensures forall c :: 0 <= c < ncentroids ==>
        dirty[c] == (old(dirty[c]) || MovedInto(centroids[..], old(clusterOf[..]), c, s, e))
      ensures tooFar == (old(tooFar) || FarIn(centroids[..], old(clusterOf[..]), s, e))
    {
      ghost var m0 := clusterOf[..];
      var i := s;
      while i < e
        modifies clusterOf, dirty, this`tooFar
        invariant s <= i <= e
        invariant InRange(clusterOf[..])
        invariant forall p :: 0 <= p < npoints ==>
          clusterOf[p] == if s <= p < i then ScanOf(centroids[..], m0, p).cluster else m0[p]
        invariant forall c :: 0 <= c < ncentroids ==> dirty[c] == (old(dirty[c]) || MovedInto(centroids[..], m0, c, s, i))
        invariant tooFar == (old(tooFar) || FarIn(centroids[..], m0, s, i))
      {
        ghost var mi := clusterOf[..];
        assert ScanOf(centroids[..], mi, i) == ScanOf(centroids[..], m0, i);
        var distance := ScanPoint(i);
        if distance > mindistance {
          tooFar := true;
        }
        MovedIntoStep(centroids[..], m0, s, i);
        FarInStep(centroids[..], m0, s, i);
        i := i + 1;
      }
    }

    lemma MovedIntoStep(cents: seq<Vector>, m: seq<int>, lo: int, i: int)
      requires Static() && Fits(cents, m) && 0 <= lo <= i < npoints
      ensures forall c :: MovedInto(cents, m, c, lo, i + 1) == (MovedInto(cents, m, c, lo, i) || c in ScanOf(cents, m, i).moves)
    {
    }

    lemma FarInStep(cents: seq<Vector>, m: seq<int>, lo: int, i: int)
      requires Static() && Fits(cents, m) && 0 <= lo <= i < npoints
      ensures FarIn(cents, m, lo, i + 1) == (FarIn(cents, m, lo, i) || ScanOf(cents, m, i).distance > mindistance)
    {
    }

    /** `_populate`: clear `too_far`, then run `populate` on every worker's chunk of points.
        The result is the scan of every point against the old map, whatever nthreads is. */
    method AssignPhase()
      requires Valid() && InRange(clusterOf[..])
      modifies clusterOf, dirty, this`tooFar
      ensures Valid() && InRange(clusterOf[..])
      ensures forall p :: 0 <= p < npoints ==> clusterOf[p] == ScanOf(centroids[..], old(clusterOf[..]), p).cluster
      ensures forall c :: 0 <= c < ncentroids ==>
        dirty[c] == (old(dirty[c]) || MovedInto(centroids[..], old(clusterOf[..]), c, 0, npoints))
      ensures tooFar == FarIn(centroids[..], old(clusterOf[..]), 0, npoints)
    {
      ghost var m0 := clusterOf[..];
      ghost var d0 := dirty[..];
      tooFar := false;
      ChunksSpan(npoints, nthreads);
      var t := 0;
      while t < nthreads
        modifies clusterOf, dirty, this`tooFar
        invariant 0 <= t <= nthreads
        invariant 0 <= ChunkStart(t, npoints, nthreads) <= npoints
        invariant InRange(clusterOf[..])
        invariant forall p :: 0 <= p < npoints ==>
          clusterOf[p] == if p < ChunkStart(t, npoints, nthreads) then ScanOf(centroids[..], m0, p).cluster else m0[p]
        invariant forall c :: 0 <= c < ncentroids ==>
          dirty[c] == (d0[c] || MovedInto(centroids[..], m0, c, 0, ChunkStart(t, npoints, nthreads)))
        invariant tooFar == FarIn(centroids[..], m0, 0, ChunkStart(t, npoints, nthreads))
      {
        ChunkBounds(t, npoints, nthreads);
        var startPoint := t * npoints / nthreads;
        var endPoint := (t + 1) * npoints / nthreads;
        ghost var mt := clusterOf[..];
        Populate(startPoint, endPoint);
        assert forall p :: startPoint <= p < endPoint ==> mt[p] == m0[p];
        assert forall p :: startPoint <= p < endPoint ==> ScanOf(centroids[..], mt, p) == ScanOf(centroids[..], m0, p);
        MovedIntoJoin(centroids[..], m0, mt, startPoint, endPoint);
        FarInJoin(centroids[..], m0, mt, startPoint, endPoint);
        t := t + 1;
      }
    }

    lemma MovedIntoJoin(cents: seq<Vector>, m0: seq<int>, mt: seq<int>, mid: int, hi: int)
      requires Static() && Fits(cents, m0) && Fits(cents, mt)
      requires 0 <= mid <= hi <= npoints
      requires forall p :: mid <= p < hi ==> ScanOf(cents, mt, p) == ScanOf(cents, m0, p)
      ensures forall c :: MovedInto(cents, m0, c, 0, hi) == (MovedInto(cents, m0, c, 0, mid) || MovedInto(cents, mt, c, mid, hi))
    {
    }

    lemma FarInJoin(cents: seq<Vector>, m0: seq<int>, mt: seq<int>, mid: int, hi: int)
      requires Static() && Fits(cents, m0) && Fits(cents, mt)
      requires 0 <= mid <= hi <= npoints
      requires forall p :: mid <= p < hi ==> ScanOf(cents, mt, p) == ScanOf(cents, m0, p)
      ensures FarIn(cents, m0, 0, hi) == (FarIn(cents, m0, 0, mid) || FarIn(cents, mt, mid, hi))
    {
    }

    /** The accumulate-and-count loop of `compute_centroids` for cluster c: the coordinates
        of its members are added up in point order, and the members counted. */
    method SumMembers(c: int) returns (acc: array<real>, population: nat)
      requires Valid() && 0 <= c < ncentroids
      ensures fresh(acc) && acc.Length == dimension
      ensures acc[..] == C.MemberSum(data, clusterOf[..], c, dimension)
      ensures population == C.Population(clusterOf[..], c)
    {
      acc := new real[dimension](_ => 0.0);
      population := 0;
      var j := 0;
      while j < npoints
        modifies acc
        invariant 0 <= j <= npoints
        invariant acc[..] == C.MemberSum(data[..j], clusterOf[..j], c, dimension)
        invariant population == C.Population(clusterOf[..j], c)
      {
        assert data[..j + 1][..j] == data[..j] && clusterOf[..j + 1][..j] == clusterOf[..j];
        if clusterOf[j] == c {
          ghost var before := acc[..];
          var k := 0;
          while k < dimension
            modifies acc
            invariant 0 <= k <= dimension
            invariant forall q :: 0 <= q < k ==> acc[q] == before[q] + data[j][q]
            invariant forall q :: k <= q < dimension ==> acc[q] == before[q]
          {
            acc[k] := acc[k] + data[j][k];
            k := k + 1;
          }
          population := population + 1;
        }
        j := j + 1;
      }
      assert data[..npoints] == data && clusterOf[..npoints] == clusterOf[..];
    }

    /** The body of `compute_centroids` for one dirty cluster c: zero the centroid, add up
        the coordinates of its members while counting them, and divide by the count when it
        exceeds 1. The other centroids do not change. */
    method RecomputeCluster(c: int)
      requires Valid() && 0 <= c < ncentroids
      modifies centroids
      ensures Valid()
      ensures centroids[c] == C.Recomputed(data, clusterOf[..], c, dimension)
      ensures forall i :: 0 <= i < ncentroids && i != c ==> centroids[i] == old(centroids[i])
    {
      var acc, population := SumMembers(c);
      ghost var sum := acc[..];
      if population > 1 {
        var k := 0;
        while k < dimension
          modifies acc
          invariant 0 <= k <= dimension
          invariant forall q :: 0 <= q < k ==> acc[q] == sum[q] * (1.0 / population as real)
          invariant forall q :: k <= q < dimension ==> acc[q] == sum[q]
        {
          acc[k] := acc[k] * (1.0 / population as real);
          k := k + 1;
        }
        ghost var f := 1.0 / population as real;
        assert |Scale(sum, f)| == dimension;
        assert forall q :: 0 <= q < dimension ==> acc[..][q] == Scale(sum, f)[q];
        assert acc[..] == Scale(sum, f);
      }
      centroids[c] := acc[..];
    }

    /** `compute_centroids` for the clusters [s, e): every dirty one is recomputed and sets
        `has_changed`; clean ones keep their centroid. */
    method RecomputeRange(s: int, e: int)
      requires Valid() && 0 <= s <= e <= ncentroids
      modifies centroids, this`hasChanged
      ensures Valid()
      ensures forall c :: 0 <= c < ncentroids ==>
        centroids[c] == if s <= c < e && dirty[c] then C.Recomputed(data, clusterOf[..], c, dimension)
                        else old(centroids[c])
      ensures hasChanged == (old(hasChanged) || exists c :: s <= c < e && dirty[c])
    {
      var i := s;
      while i < e
        invariant s <= i <= e
        invariant Valid()
        invariant forall c :: 0 <= c < ncentroids ==>
          centroids[c] == if s <= c < i && dirty[c] then C.Recomputed(data, clusterOf[..], c, dimension)
                          else old(centroids[c])
        invariant hasChanged == (old(hasChanged) || exists c :: s <= c < i && dirty[c])
      {
        if dirty[i] {
          RecomputeCluster(i);
          hasChanged := true;
        }
        i := i + 1;
      }
    }

    /** `_compute_centroids`: clear `has_changed`, run `compute_centroids` on every worker's
        chunk of clusters, then mark every cluster clean. */
    method ComputePhase()
      requires Valid()
      modifies centroids, dirty, this`hasChanged
      ensures Valid()
      ensures forall c :: 0 <= c < ncentroids ==>
        centroids[c] == if old(dirty[c]) then C.Recomputed(data, clusterOf[..], c, dimension)
                        else old(centroids[c])
      ensures hasChanged == exists c :: 0 <= c < ncentroids && old(dirty[c])
      ensures forall c :: 0 <= c < ncentroids ==> !dirty[c]
    {
      hasChanged := false;
      ChunksSpan(ncentroids, nthreads);
      var t := 0;
      while t < nthreads
        modifies centroids, this`hasChanged
        invariant 0 <= t <= nthreads
        invariant 0 <= ChunkStart(t, ncentroids, nthreads) <= ncentroids
        invariant Valid()
        invariant forall c :: 0 <= c < ncentroids ==>
          centroids[c] == if c < ChunkStart(t, ncentroids, nthreads) && dirty[c]
                          then C.Recomputed(data, clusterOf[..], c, dimension)
                          else old(centroids[c])
        invariant hasChanged == exists c :: 0 <= c < ChunkStart(t, ncentroids, nthreads) && dirty[c]
      {
        ChunkBounds(t, ncentroids, nthreads);
        var startCentroid := t * ncentroids / nthreads;
        var endCentroid := (t + 1) * ncentroids / nthreads;
        RecomputeRange(startCentroid, endCentroid);
        t := t + 1;
      }
      var c := 0;
      while c < ncentroids
        modifies dirty
        invariant 0 <= c <= ncentroids
        invariant forall i :: 0 <= i < c ==> !dirty[i]
        invariant forall i :: c <= i < ncentroids ==> dirty[i] == old(dirty[i])
      {
        dirty[c] := false;
        c := c + 1;
      }
    }

    /** The postconditions of `_populate` and `_compute_centroids`, read as one `Round`. */
    lemma RoundFrom(st: Snapshot, m: seq<int>, d: seq<bool>, far: bool, cents: seq<Vector>)
      requires Static() && Shaped(st)
      requires |m| == npoints && forall p :: 0 <= p < npoints ==> m[p] == ScanOf(st.cents, st.clusterOf, p).cluster
      requires |d| == ncentroids && forall c :: 0 <= c < ncentroids ==>
        d[c] == (st.dirty[c] || MovedInto(st.cents, st.clusterOf, c, 0, npoints))
      requires far == FarIn(st.cents, st.clusterOf, 0, npoints)
      requires |cents| == ncentroids && forall c :: 0 <= c < ncentroids ==>
        cents[c] == if d[c] then C.Recomputed(data, m, c, dimension) else st.cents[c]
      ensures Round(st) ==
        Snapshot(m, cents, seq(ncentroids, _ => false), far && exists c :: 0 <= c < ncentroids && d[c])
    {
      assert m == Reassigned(st);
      assert d == Marked(st);
      assert cents == Recentred(st.cents, m, d);
    }

    /** One iteration of the loop in `kmeans`: `_populate` then `_compute_centroids`. Its
        effect is `Round`, whatever the worker count. */
    method OneRound()
      requires Valid() && InRange(clusterOf[..])
      modifies clusterOf, dirty, centroids, this`tooFar, this`hasChanged
      ensures Valid() && InRange(clusterOf[..])
      ensures Contents() == Round(old(Contents()))
    {
      ghost var st := Contents();
      AssignPhase();
      ghost var m, marked, far := clusterOf[..], dirty[..], tooFar;
      ComputePhase();
      assert dirty[..] == seq(ncentroids, _ => false);
      RoundFrom(st, m, marked, far, centroids[..]);
    }

    /** The round loop of `kmeans`: rounds repeat while some point is too far from its
        centroid and some centroid changed. The loop is capped at maxRounds rounds (at least
        one round always runs). The final state is that of `rounds` rounds from the start
        state; the loop condition held after every round but the last, and when the loop
        stops before the cap it is false. */
    method Cluster(maxRounds: nat) returns (rounds: nat)
      requires Valid() && InRange(clusterOf[..])
      modifies clusterOf, dirty, centroids, this`tooFar, this`hasChanged
      ensures Valid() && InRange(clusterOf[..])
      ensures 1 <= rounds && (rounds <= maxRounds || rounds == 1)
      ensures Contents() == Rounds(old(Contents()), rounds)
      ensures forall j :: 1 <= j < rounds ==> Rounds(old(Contents()), j).again
      ensures rounds < maxRounds ==> !(tooFar && hasChanged)
      ensures forall c :: 0 <= c < ncentroids ==> !dirty[c]
    {
      ghost var trace := [Contents()];
      OneRound();
      trace := trace + [Contents()];
      rounds := 1;
      while tooFar && hasChanged && rounds < maxRounds
        invariant Valid() && InRange(clusterOf[..])
        invariant 1 <= rounds && (rounds <= maxRounds || rounds == 1)
        invariant |trace| == rounds + 1 && Traced(trace) && trace[0] == old(Contents())
        invariant Contents() == trace[rounds]
        decreases maxRounds - rounds
      {
        OneRound();
        TracedExtend(trace, Contents());
        trace := trace + [Contents()];
        rounds := rounds + 1;
      }
      TracedRounds(trace);
    }

    /** `kmeans`: initialise, cluster, and return the assignment map. The result is the map
        of `rounds` rounds from the prologue's state, which the generator state determines;
        nothing in it depends on the worker count. The map is returned in place, and the
        generator is left where the prologue left it. */
    method Run(maxRounds: nat) returns (result: seq<int>, rounds: nat)
      requires Valid()
      modifies clusterOf, dirty, centroids, rng, this`tooFar, this`hasChanged
      ensures Valid()
      ensures |result| == npoints
      ensures forall p :: 0 <= p < npoints ==> 0 <= result[p] < ncentroids
      ensures 1 <= rounds && (rounds <= maxRounds || rounds == 1)
      ensures result == Rounds(Start(old(rng.Current())), rounds).clusterOf
      ensures forall j :: 1 <= j < rounds ==> Rounds(Start(old(rng.Current())), j).again
      ensures rounds < maxRounds ==> !Rounds(Start(old(rng.Current())), rounds).again
      ensures clusterOf[..] == result
      ensures rng.Current() ==
        StateAfter(old(rng.Current()), ncentroids + Unassigned(SeededMap(old(rng.Current()), npoints, ncentroids), 0))
    {
      ghost var s0 := rng.Current();
      Init();
      assert Contents() == Start(s0);
      rounds := Cluster(maxRounds);
      result := clusterOf[..];
    }
  }
}
