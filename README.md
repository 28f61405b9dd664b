# Parallel k-means and loop decomposition, modelled in Dafny

This project models two small pthreads programs.

- `km_para.c` is a k-means clusterer. It uses a seedable multiply-with-carry generator
  (`srandnum`/`randnum`). The `kmeans` prologue seeds the centroids and the assignment map
  from that generator. Then `kmeans` repeats rounds of two parallel phases:
  - assignment (`_populate`/`populate`): each point moves to its nearest centroid, and the
    phase sets the `dirty` and `too_far` flags;
  - recomputation (`_compute_centroids`/`compute_centroids`): each dirty centroid becomes
    the mean of its members, the phase sets `has_changed` and then clears `dirty`.
  Rounds repeat while `too_far && has_changed`.
- `multadd.c` splits an array among workers. Each worker adds 1 to its own chunk.

Both programs give worker `i` of `T` the index range `[i*N/T, (i+1)*N/T)`.

The threads are not modelled. Each parallel phase becomes a sequential loop over the
worker chunks 0, 1, …, T-1, in order. This gives the same result as the C program:
- each worker writes a disjoint index range (`map[i]`, `centroids[i]`, `a[i]`);
- the shared flags (`dirty[j]`, `too_far`, `has_changed`) are only ever set to 1 inside a
  phase.

The phase contracts do not mention the worker count (beyond it being at least 1). The
result of `kmeans` is stated as a number of rounds of `Round`, a function on values from
the state the prologue leaves, and `Round` does not take the worker count either. So the
contracts state that the clustering does not depend on the number of threads, and that the
generator state at entry determines it.

Modules, one file each:

- `Partition` (`partition.dfy`): the chunk bounds and the proof that the chunks tile `[0, N)`.
- `Random` (`random.dfy`): the generator. It is a `Generator` class holding the two state
  words, plus pure functions `Step`, `Output`, `StateAfter` and `Draw` that specify it.
  Unsigned 32-bit arithmetic is written out modulo 2^32, and the bit operations are written
  as their arithmetic equivalents.
- `Vectors` (`vectors.dfy`): the coordinate rows of points and centroids.
- `Assignment` (`assignment.dfy`): `populate`'s running-minimum scan for one point, as a
  pure function, and its properties.
- `Centroids` (`centroids.dfy`): the centroid `compute_centroids` computes for a dirty
  cluster, as a pure function, and its properties.
- `KMeans` (`kmeans.dfy`): the `Clusterer` class. Its fields are the C globals:
  `clusterOf` (C `map`), `dirty`, `centroids`, `tooFar`, `hasChanged`, the data set, the
  parameters and the generator. Its methods are the prologue, the two phases and the round
  loop. Each method is proved against the pure specification functions. `Round` is one
  iteration of the `kmeans` loop on values (map, centroids, dirty flags, loop condition),
  and `Rounds` iterates it.
- `MultAdd` (`multadd.dfy`): `do_work` and the worker setup and run of `main`.

Modelling choices:
- Coordinates are `real`. `main` generates integer coordinates.
- The distance `v_distance` is a parameter `dist` of the clusterer. No property depends on
  how the distance is computed.
- The C `int` flags, which only ever hold 0 or 1, are `bool`.
- The round loop takes a cap `maxRounds` (see "Left out").

In three places the code does something more specific than a plain description of
k-means would suggest. The model follows the code:
- A point's scan marks dirty every cluster it moves to during the scan, not only its final
  cluster. `Assignment.Scan.moves` records exactly these clusters.
- The scan skips the point's *current* cluster, which changes as the point moves.
- A dirty cluster's centroid is divided by its population only when the population exceeds 1.

## Model

| member | source | states |
|---|---|---|
| `Partition.ChunkBounds` | km_para.c:91-92 | For 0 ≤ i < T and N ≥ 0: 0 ≤ start(i) ≤ end(i) ≤ N, and end(i) = start(i+1). No worker gets a negative or out-of-range chunk, and consecutive chunks meet. |
| `Partition.ChunksSpan` | km_para.c:136-137 | The first chunk starts at 0, and the last chunk ends at N (start(T) = N). |
| `Partition.ChunksTile` | multadd.c:58-61 | Every index k in [0, N) lies in some worker's chunk, and in only one: the chunks cover [0, N) with no gap or overlap. |
| `Random.SeededNonzero` | km_para.c:20-26 | After `srandnum` neither word is zero. Each word is seed·104623 (or seed·48947) mod 2^32, or 521288629 (or 362436069) exactly when that product is 0 mod 2^32. |
| `Random.MwcNoWrap` | km_para.c:30-31 | 36969·(z&65535)+(z>>16) and 18000·(w&65535)+(w>>16) are below 2^32, so the update never wraps. The new word is zero exactly when the old word is zero. |
| `Random.StaysNonzero` | km_para.c:28-34 | From a state with both words nonzero, any number of `randnum` calls keeps both words nonzero. |
| `Random.StateAfterAdd` | km_para.c:28-34 | Drawing a numbers and then b more numbers leaves the generator in the state of drawing a + b numbers. |
| `Random.SeededStreamNonzero` | km_para.c:20-34 | Every state reached from any seed by any number of draws has two nonzero words. |
| `Random.Generator.constructor` | km_para.c:17-18 | Before any reseeding the words are 521288629 and 362436069. |
| `Random.Generator.Reseed` | km_para.c:20-26 | `srandnum` sets the words to `Seeded(seed)`. |
| `Random.Generator.Next` | km_para.c:28-34 | `randnum` advances the state by `Step` and returns ((z'<<16)+w') mod 2^32 from the new words. The result depends only on the state, so a seed determines the whole output sequence (`Draw`). |
| `Assignment.ScanFromKeeps` | km_para.c:68-77 | Each step of the scan keeps five facts: the current cluster is valid; the current distance is that cluster's distance; it is at most the distance of every centroid scanned; every cluster moved to is strictly closer than the original; the current cluster is the original or one moved to. |
| `Assignment.NearestSpec` | km_para.c:65-77 | After the scan the point is in a valid cluster, and its final distance is that cluster's distance and at most its distance to every centroid. Every cluster marked dirty for it is strictly closer than its original cluster. It keeps its cluster exactly when no centroid is strictly closer, which is exactly when nothing is marked dirty for it. |
| `Centroids.EmptyCluster` | km_para.c:114-120 | The population is 0 exactly when no point maps to the cluster. Then the member sum is the zero vector. |
| `Centroids.SingletonCluster` | km_para.c:114-120 | When point q is the cluster's only member, the population is 1 and the member sum is q's coordinates. |
| `Centroids.MemberSumAt` | km_para.c:115-118 | Each coordinate of the accumulated member sum is the sum of that coordinate over the cluster's members. |
| `Centroids.RecomputedEmpty` | km_para.c:112-124 | A dirty cluster without members gets the zero vector. |
| `Centroids.RecomputedSingleton` | km_para.c:112-124 | A dirty cluster with exactly one member gets exactly that member's coordinates. |
| `Centroids.RecomputedMean` | km_para.c:121-124 | A dirty cluster with more than one member gets, in each coordinate, the sum over its members divided by the population. |
| `KMeans.SeededMapSpec` | km_para.c:166-174 | After seeding, each point is either unassigned (-1) or claimed by a cluster whose draw selected it. The point drawn for cluster i is claimed by i or by a later cluster that drew it again. |
| `KMeans.FillSpec` | km_para.c:176-178 | The fill loop changes only points that are still unassigned, and gives each of them a cluster in [0, ncentroids). |
| `KMeans.FillEndSpec` | km_para.c:176-178 | The fill loop draws exactly one number for each point that is still unassigned, so it leaves the generator `Unassigned` draws further on. |
| `KMeans.InitialMapSpec` | km_para.c:164-178 | After the prologue every map entry is in [0, ncentroids). The point cluster i was seeded from belongs to a cluster seeded from that same point. |
| `KMeans.Clusterer.constructor` | km_para.c:157-165 | Allocates the map, dirty and centroid buffers with the sizes `kmeans` uses, and establishes the size invariant `Valid`. |
| `KMeans.Clusterer.Init` | km_para.c:154-178 | The prologue clears both flags and leaves every dirty flag set. It sets centroid i to the point chosen by draw i. The map becomes `InitialMap` of the generator state, so every entry is in range. The generator ends `ncentroids` draws further on, plus one draw per point the seeding left unassigned. |
| `KMeans.Clusterer.Unassign` | km_para.c:166-167 | Every map entry becomes -1. |
| `KMeans.Clusterer.SeedCentroids` | km_para.c:168-174 | Cluster i is dirty, its centroid is the point of draw i, and the map is `SeededMap`. The generator advances by exactly `ncentroids` draws. |
| `KMeans.Clusterer.FillUnassigned` | km_para.c:176-178 | The map becomes `Fill` of the old map and generator state, and the generator ends in `FillEnd` of them. |
| `KMeans.Clusterer.ScanPoint` | km_para.c:66-77 | One point's scan. Only that point's map entry changes, and it becomes the scan's cluster. The returned distance is the scan's final distance. A dirty flag changes only by being set, for the clusters the scan moved the point to. |
| `KMeans.Clusterer.Populate` | km_para.c:59-82 | For the points in [s, e): each map entry becomes its scan's cluster, and entries outside the range do not change. A dirty flag is set exactly when it was already set or some point in the range moved to that cluster. `too_far` is set exactly when it was already set or some point ends farther than `mindistance`. |
| `KMeans.Clusterer.AssignPhase` | km_para.c:84-102 | `_populate` over all worker chunks gives the result of scanning every point against the old map, for any thread count. The map stays in range. `too_far` ends true exactly when some point's final distance exceeds `mindistance`. Dirty flags are only set, and only for clusters some point moved to. |
| `KMeans.Clusterer.SumMembers` | km_para.c:114-120 | The accumulated row is `MemberSum` of the cluster's members, and the count is the cluster's `Population`. |
| `KMeans.Clusterer.RecomputeCluster` | km_para.c:111-124 | The zero/accumulate/count/divide loops store `Recomputed` as the cluster's centroid. Every other centroid is unchanged. |
| `KMeans.Clusterer.RecomputeRange` | km_para.c:104-127 | `compute_centroids` on [s, e) recomputes the dirty clusters of the range and leaves every other centroid unchanged. It sets `has_changed` exactly when it was already set or some cluster of the range is dirty. |
| `KMeans.Clusterer.ComputePhase` | km_para.c:129-150 | `_compute_centroids` replaces every dirty centroid by `Recomputed` and leaves clean ones unchanged. `has_changed` ends true exactly when some cluster was dirty. Every dirty flag is cleared. |
| `KMeans.Clusterer.RoundNearest` | km_para.c:65-77 | After a round, every point is in a cluster whose old centroid is at least as close as every old centroid. A centroid changes only if its cluster was dirty or some point moved to it. |
| `KMeans.Clusterer.RoundStable` | km_para.c:180-184 | From a state with no dirty cluster where no point has a strictly closer centroid, a round keeps the map and the centroids, and the loop condition is false. |
| `KMeans.Clusterer.OneRound` | km_para.c:181-183 | `_populate` followed by `_compute_centroids` changes the map, centroids, dirty flags and loop condition exactly as `Round` does, for any worker count. |
| `KMeans.Clusterer.Cluster` | km_para.c:180-184 | Runs at least one round and at most max(1, maxRounds). The final map, centroids and flags are `Rounds` of the starting state for that number of rounds. The loop condition `too_far && has_changed` held after every round but the last. When the loop stops before the cap, the condition is false. |
| `KMeans.Clusterer.Run` | km_para.c:152-192 | `kmeans` returns the map of `Rounds` from `Start`, the prologue's state for the generator state at entry. The returned map is the map buffer itself. The generator ends `ncentroids` draws further on, plus one draw per point the seeding left unassigned. The loop condition held after every round but the last, and it is false after the last when that is before the cap. Every entry is in [0, ncentroids). |
| `MultAdd.DoWork` | multadd.c:27-39 | Every element of [start, end) is incremented by exactly 1, and every other element is unchanged. |
| `MultAdd.MakeParams` | multadd.c:58-61 | Worker i gets id i and the range [i·arraysize/nthreads, (i+1)·arraysize/nthreads). With no workers it sets up nothing. |
| `MultAdd.Run` | multadd.c:50-67 | On the zero-initialised array, after all workers have run, every element is 1 (0 when there are no workers). |

## Left out

- Threads (`pthread_create`/`pthread_join`) and the unsynchronised flag writes are not
  modelled. Each phase runs its worker chunks sequentially in order (see above).
- Allocation (`malloc`/`calloc`/`free`) and the `exit(1)` paths on allocation failure are
  not modelled. The `Clusterer` constructor stands for the allocations of `kmeans`.
- Floating point is not modelled. The distance is an arbitrary function, and coordinates
  and the division by the population are exact `real` arithmetic. So the distance
  properties (d(a,a) = 0, symmetry) are not stated.
- `main` in both files is partly left out: argument parsing, the random data generator
  (km_para.c:214-218) and all printing, including the `printf` in `do_work`
  (multadd.c:35). The data set and an already seeded generator are
  inputs of the `Clusterer` constructor.
- Signed overflow (undefined in C) in `seed * 104623`, `seed * 48947`, `i*npoints`,
  `i*ncentroids` and `i*arraysize` is not modelled. The seed products are taken modulo 2^32,
  which is what a wrapping implementation gives. The chunk products use unbounded integers.
- KMeans.Clusterer.Cluster: the C loop has no bound, and its termination is not
  established. The model stops after `maxRounds` rounds. It always runs the first round,
  as the C `do … while` does.
- KMeans.Clusterer.constructor: requires npoints ≥ 1 and ncentroids ≥ 1. Without them the
  prologue's `% npoints` / `% ncentroids` divide by zero. It also requires nthreads ≥ 1; a
  run with no workers, where every phase does nothing, is not modelled for the clusterer.
- KMeans.Clusterer.SeedCentroids: each centroid row is copied from its data point as one value,
  not coordinate by coordinate. The centroid buffers are an array of `seq<real>` rows.
- KMeans.Clusterer.RecomputeCluster: the row is accumulated in a local array (by
  `SumMembers`) and then stored, rather than accumulated in place in the centroid buffer.
- MultAdd.Run: a negative thread count or array size is not modelled. The counts are `nat`.
- Concrete clustering scenarios (such as a four-point data set, or ncentroids == npoints)
  are not modelled. They depend on concrete distances and draws.
