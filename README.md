# k-means clustering of 2-D integer points

A Dafny model of the clustering engine in `kmeans.cpp`. The engine partitions a set of 2-D integer points
into at most `k` clusters. It does this in four steps:

1. A deterministic initializer labels the points in contiguous blocks of `n / k + 1` points, in input
   order, and emits one centroid per block.
2. An assignment step relabels every point with the id of its nearest centroid, by Euclidean distance
   truncated to an integer.
3. An update step recomputes one centroid per non-empty cluster id `1..k`, as the mean of its members
   truncated toward zero.
4. A convergence test stops the loop after `MAX_ITERATIONS + 1` rounds, or once the new centroids sit,
   position by position, where the previous ones did.

Each step has its own module, and the program's shared data has one:

| file | module | models |
|---|---|---|
| `arith.dfy` | `IntArith` | C++ `int` division (rounds toward zero) and `int(sqrt(pow(dx,2)+pow(dy,2)))` |
| `points.dfy` | `Points` | the `point` record, plus per-cluster member counts and coordinate sums |
| `initializer.dfy` | `Initializer` | `getRandomCentroids` |
| `assigner.dfy` | `Assigner` | `allocateToCluster` |
| `updater.dfy` | `Updater` | `getNewCentroids` |
| `convergence.dfy` | `Convergence` | `stop` |
| `driver.dfy` | `Run` | the run of `kmeans` on values: its states, its stop test and its loop invariant |
| `kmeans.dfy` | `Driver` | `kmeans` itself, over the points array |

The point vector is an `array<Point>` that the methods update in place. `GetRandomCentroids`,
`AllocateToCluster` and `KMeans` update it; `GetNewCentroids` only reads it. Centroid lists are
`seq<Point>` values.

Each method is proved against a specification function on values:

| method | specification function |
|---|---|
| `GetRandomCentroids` | `InitCentroids` / `InitLabels` |
| `AllocateToCluster` | `AllocateAll` |
| `GetNewCentroids` | `NewCentroids` |
| `Stop` | `SamePositions` |
| `KMeans` | `Iterate` from `Start`, stopped at the first count where `StopsAt` holds |

Lemmas then state what those functions promise.

`KMeans` keeps the source's shape: initialise, fill the placeholder list, then loop. Its loop is the
method `Rounds`, and the loop body is the method `Step`. The run on values is `Iterate(Start(s0, k), k, i)`,
the state after `i` rounds. `StopsAt(start, k, maxIterations, i)` is the test `stop` makes before round
`i + 1`, stated in terms of that run. `KMeans` promises `Outcome`:

- the loop ran `rounds` times, the first count at which `StopsAt` holds;
- the points carry the labels of the run's state after that many rounds;
- `final` is that state's list, and `last` is the list of the round before.

`StopsAtFixedPoint` and `ConvergedIsFixedPoint` then show that a stop by the position test (rather
than by the cap) after at least one round is at a fixed point of the round. A stop before any round
need not be (`StopsBeforeAnyRound`).

The global `MAX_ITERATIONS`, which `main` sets to the number of points, is the parameter `maxIterations`.

### Behaviour of the code kept as written

The model follows the code in each of these cases:

- **The initializer divides by one fewer than the block size.** The initial centroid of a block divides
  the block's sums by `counter`. When the block closes, `counter` is the block size minus one
  (kmeans.cpp:184-190).
  - `BlockCentroid` reproduces this.
  - `FivePointsTwoClusters` shows that the second initial centroid lands outside its own block.
- **A block of a single point divides by zero.** The divisor is then 0. This happens when `p == 1` (that
  is, `k > n`), or when `n % p == 1`.
  - The model makes this an explicit `InvalidPartition` result.
  - `SingletonBlockIff` proves that the arithmetic test matches "some block has exactly one point".
  - Every 4-point input with `k = 2` hits this case, because `p = 3` and `4 % 3 == 1`.
    `FourPointsTwoClusters` proves it for the points (0,0), (0,2), (10,0), (10,2).
- **Assigning against an empty centroid list does nothing.** The inner loop never runs, so every point
  keeps its label. `Assign` models exactly that. The code has no error path here.
- **`stop` compares positionally.** It compares `oldCentroids[i]` with `centroids[i]` for `i` below the
  length of the new list, and it ignores cluster ids.
  - `oldCentroids` keeps the length of the initial list, and the new list is never longer than the
    previous one (`IterateInvariant`). So the comparison never reads out of range.
  - The list can shrink when a cluster empties. The entries compared then need not carry the same ids.
    Even so, a successful comparison after a round means the new list is exactly the first entries of
    the previous list, ids included (`ConvergedIsFixedPoint`). So once at least one round has run, the
    loop only stops on positions at a true fixed point.
- **The test before any round compares with placeholders.** `oldCentroids` starts as default points at
  (0, 0) (kmeans.cpp:103-107), and `stop(0, …)` compares the initial centroids with them
  (kmeans.cpp:111). When every initial centroid lies at the origin, the loop never runs, even if a round
  would change the labels. `StopsBeforeAnyRound` shows this for five points at the origin with `k = 2`:
  the initializer labels them 1, 1, 1, 2, 2 with both centroids at the origin, the run stops after zero
  rounds, and one round would move the last two points to cluster 1, because a tie keeps the first
  centroid.

## Model

| member | source | states |
|---|---|---|
| IntArith.TruncDivBracket | kmeans.cpp:189-190 | C++ `/` by a positive divisor: for `a >= 0` the quotient `q` is non-negative with `q*b <= a < q*b + b`; for `a < 0` it is non-positive with `q*b - b < a <= q*b`, so it rounds toward zero |
| IntArith.TruncDivNear | kmeans.cpp:281-282 | the truncated quotient times the divisor misses the dividend by less than the divisor, in either direction |
| IntArith.ISqrt | kmeans.cpp:226 | `int(sqrt(d))` is the integer `r` with `r*r <= d < (r+1)*(r+1)` |
| Points.ClusterCount | kmeans.cpp:259-272 | a cluster never has more members than there are points |
| Points.PrefixStep | kmeans.cpp:262-272 | one more point changes the running count and sums of its own cluster by its contribution, and those of every other cluster not at all |
| Points.ClusterCountPositive | kmeans.cpp:277 | a cluster's count is non-zero exactly when some point carries its label |
| Points.EmptyClusterSums | kmeans.cpp:256-272 | a cluster with no members has zero coordinate sums |
| Points.ClusterCountOutside | kmeans.cpp:251-272 | with every label in `lo..hi`, a cluster id outside that range has no members and zero sums |
| Points.StatsOfPrefix | kmeans.cpp:184-201 | once no later point carries label `c`, the count and sums of `c` over the prefix equal those over the whole sequence |
| Points.ClusterGapSum | kmeans.cpp:262-272 | if every member of cluster `c` has a projection gap of at least `g` from a point `o` along a direction, then the cluster sums exceed `count` copies of `o` by at least `count * g` along it |
| Initializer.BlockSize | kmeans.cpp:164 | `partitions = n/k + 1` is at least 1 |
| Initializer.BlockSizeCovers | kmeans.cpp:164 | `k` blocks of `n/k + 1` points hold more than `n` points |
| Initializer.InitLabels | kmeans.cpp:174-177 | the initializer's labelling has one point per input point (its shape is `InitLabelsShape`) |
| Initializer.BlockCentroid | kmeans.cpp:191 | the centroid emitted for block `c` carries id `c` |
| Initializer.BlockCentroidNear | kmeans.cpp:189-190 | the block's centroid is the block's sums divided by one fewer than its size, truncated: that many copies of it miss the sums by less than that count on each axis |
| Initializer.FirstCentroids | kmeans.cpp:184-193 | the blocks `1..m` emit exactly `m` centroids |
| Initializer.InitCentroids | kmeans.cpp:161-209 | the result is `InvalidPartition` exactly when some block has a single point; otherwise it has exactly one centroid per block, `ceil(n/p)` of them, at most `k`, the `j`-th carrying id `j+1` |
| Initializer.LabelInBlock | kmeans.cpp:177-204 | point `i` receives label `c` exactly when `(c-1)*p <= i < c*p` |
| Initializer.BlockCount | kmeans.cpp:174-204 | the number of points labelled `c` equals the length of block `c` |
| Initializer.BlockLenOf | kmeans.cpp:184-204 | every block but the last holds `p` points, the last holds `(n-1) % p + 1`, and each block holds between 1 and `p` points |
| Initializer.SingletonBlockIff | kmeans.cpp:184-190 | the up-front test `HasSingletonBlock`, `n > 0 && (p == 1 \|\| n % p == 1)`, holds exactly when some block has one point, i.e. when the code divides by `counter == 0` |
| Initializer.InitBlockCounts | kmeans.cpp:184-190 | without a one-point block every block has at least 2 members, so every divisor is non-zero |
| Initializer.NumBlocksAtMostK | kmeans.cpp:164-204 | there are at most `k` blocks, so at most `k` initial centroids and labels within `1..k` |
| Initializer.InitLabelsShape | kmeans.cpp:174-204 | the initial labels start at 1, end at the number of blocks, never decrease, rise by at most 1 between neighbours, lie within `1..blocks`, and keep every coordinate |
| Initializer.ScanStart | kmeans.cpp:164-171 | the scan starts in a consistent state: counter 0, cluster 1, zero sums, no centroids |
| Initializer.ScanContinue | kmeans.cpp:177-204 | a point that does not close its block adds to the running sums and raises `counter` by one, keeping the scan consistent |
| Initializer.ScanClose | kmeans.cpp:184-202 | a point that closes its block finds `counter > 0`, emits the block's centroid (sums divided by `counter`), and leaves the scan consistent with the next block opened empty |
| Initializer.LaterBlocks | kmeans.cpp:184-201 | after a point that closes its block, no later point shares its label |
| Initializer.EarlierBlocks | kmeans.cpp:174-204 | up to point `x`, every label lies within `1..x/p+1` |
| Initializer.GetRandomCentroids | kmeans.cpp:161-209 | returns `InitCentroids` of the input. On success the points are relabelled in place with `InitLabels` (coordinates kept); on `InvalidPartition` they are untouched |
| Initializer.FourPointsTwoClusters | kmeans.cpp:164-190 | (0,0), (0,2), (10,0), (10,2) with `k = 2` form blocks of 3 and 1 points, and the initializer fails |
| Initializer.FiveOriginPoints | kmeans.cpp:164-193 | five points at (0,0) with `k = 2` form blocks of 3 and 2, are labelled 1, 1, 1, 2, 2, and give two initial centroids at the origin |
| Initializer.FivePointsTwoClusters | kmeans.cpp:164-193 | (0,0), (0,2), (0,4), (10,0), (10,2) with `k = 2` give the initial centroids (0,3) and (20,2), because each block is divided by its size minus one |
| Assigner.Dist | kmeans.cpp:226-234 | the distance kept is the truncated Euclidean distance: `r*r <= dx*dx + dy*dy < (r+1)*(r+1)` |
| Assigner.NearestIn | kmeans.cpp:219-243 | after `m` centroids the index kept is one of the first `m` |
| Assigner.Nearest | kmeans.cpp:219-243 | the chosen index is an index of the centroid list |
| Assigner.Assign | kmeans.cpp:215-243 | a point keeps its coordinates. It gets the id of one of the centroids, or, with no centroids, stays exactly as it was |
| Assigner.AllocateAll | kmeans.cpp:215-244 | the relabelled sequence has one point per input point |
| Assigner.NearestInMinimal | kmeans.cpp:219-243 | the index kept after `m` centroids is no farther than any of the first `m`, and strictly nearer than every centroid before it (a tie keeps the earlier one) |
| Assigner.NearestIsFirstMinimum | kmeans.cpp:219-243 | the chosen index is exactly the lowest-index centroid at minimal truncated distance (both directions) |
| Assigner.NearestInPrefix | kmeans.cpp:219-243 | the scan over the first `m` centroids picks the same index in any prefix of the list that covers them |
| Assigner.NearestInSettled | kmeans.cpp:236-241 | once the scan has settled below `m1`, later centroids did not take over: it had the same index after `m1` centroids |
| Assigner.NearestOfPrefix | kmeans.cpp:219-243 | when the nearest centroid lies within the first `n`, it is also the nearest centroid of that prefix |
| Assigner.NearestInPosition | kmeans.cpp:226-240 | the choice depends only on the point's coordinates, not its current label |
| Assigner.DistPosition | kmeans.cpp:226-234 | the truncated distance depends only on the point's coordinates |
| Assigner.AllocateIdempotent | kmeans.cpp:211-245 | allocating a second time against the same centroids changes nothing |
| Assigner.AllocateLabelsWithin | kmeans.cpp:227-240 | after allocation every label is within the range of the centroid ids, or, with no centroids, stays within the old labels' range |
| Assigner.AllocateToCluster | kmeans.cpp:211-245 | the array after the call is `AllocateAll` of the array before: each point has the id of the first nearest centroid and its own coordinates |
| Assigner.NearerSquared | kmeans.cpp:236 | a strictly smaller truncated distance means a strictly smaller squared distance |
| Assigner.CloserGap | kmeans.cpp:236 | a centroid strictly nearer than `b` lies beyond the bisector: the point's offset from `b`, projected on the direction to it, is at least `\|dx\| + \|dy\|` and at least 1 |
| Updater.MeanNearExact | kmeans.cpp:281-282 | `count` copies of a cluster's centroid miss its coordinate sums by less than `count` on each axis: the centroid is the mean up to truncation |
| Updater.NewCentroidsSound | kmeans.cpp:251-286 | the new list has strictly increasing ids within `1..m`, lists only clusters with members, puts each one at the truncated mean of its members, and has at most `m` entries |
| Updater.NewCentroidsComplete | kmeans.cpp:251-286 | every cluster id in `1..m` that has a member has its centroid in the list (empty ones are skipped, not kept) |
| Updater.HasIdAppend | kmeans.cpp:284 | appending a centroid adds exactly its id to the ids present |
| Updater.IncreasingIdsBound | kmeans.cpp:251-286 | a list with strictly increasing ids within `1..bound` has at most `bound` entries |
| Updater.NewCentroidsWithin | kmeans.cpp:251-286 | with all labels in `1..bound`, the new centroids' ids are in `1..bound` and there are at most `bound` of them |
| Updater.GetNewCentroids | kmeans.cpp:247-291 | returns exactly `NewCentroids` of the points, computed with counting loops that only read the array |
| Convergence.Stop | kmeans.cpp:139-159 | returns true exactly when the iteration count exceeds the cap, or every centroid of the new list has the coordinates of the old centroid at the same index (`SamePositions`) |
| Convergence.SamePositionsPrefix | kmeans.cpp:146-156 | only the first `\|centroids\|` old entries take part in the comparison |
| Run.Placeholders | kmeans.cpp:103-107 | the fill loop builds one placeholder per initial centroid |
| Run.SubsetIdsBound | kmeans.cpp:129-131 | a list with increasing ids whose ids all occur in another such list is no longer than it |
| Run.AllocatedCentroidsBound | kmeans.cpp:129-131 | one round never lengthens the centroid list: each recomputed id is the id of a centroid the points were assigned to |
| Run.NewCentroidsNonEmpty | kmeans.cpp:131 | with at least one point, the recomputed list is never empty, so the next assignment always has a centroid |
| Run.InitialCoherent | kmeans.cpp:99 | after a successful initialisation, the centroid ids increase strictly within `1..blocks`, every label is in that range, and the list is non-empty when there are points |
| Run.RoundKeeps | kmeans.cpp:129-131 | one assign-and-recompute round keeps that coherence and every coordinate, leaves labels that another allocation would not change, and does not lengthen the list |
| Run.Start | kmeans.cpp:99 | the loop starts with one centroid per block |
| Run.StartSound | kmeans.cpp:99 | the initializer's state is coherent, with `blocks <= k`, and keeps every coordinate |
| Run.RoundInvariant | kmeans.cpp:129-131 | a round keeps a coherent state coherent and at the same positions, settles the labels against the list it started from, and does not lengthen the list |
| Run.IterateInvariant | kmeans.cpp:111-132 | every state of the run is coherent, keeps the start's coordinates and has at most `blocks` centroids; after a round its labels are settled against the previous list, and its list is no longer than that one |
| Run.IterateBound | kmeans.cpp:111-132 | every state of the run has at most `blocks` centroids, the length of the placeholder list |
| Run.TieKeepsFirst | kmeans.cpp:226-240 | with two centroids at the same place, every point picks the first, because only a strictly nearer centroid takes over |
| Run.StopsBeforeAnyRound | kmeans.cpp:103-131 | for five points at the origin with `k = 2` the first test against the placeholders stops the run after zero rounds, though one round would change the labels |
| Run.StopsAtFixedPoint | kmeans.cpp:111-132 | a run that stops on the position test after `i` rounds, within the cap, is at a fixed point: round `i + 1` changes nothing, and the list after `i` rounds is a prefix of the list before |
| Run.Snapshot | kmeans.cpp:123-124 | the first `\|centroids\|` entries of the old list become the current centroids; the rest stay |
| Run.ProgressStart | kmeans.cpp:99-111 | the state after initialisation and the placeholder fill satisfies the loop invariant `Progress` |
| Run.ProgressStep | kmeans.cpp:123-131 | one round (snapshot, allocate, recompute) from the run's state after `i` rounds gives the run's state after `i + 1`, with the snapshot holding the previous list |
| Run.StopTest | kmeans.cpp:111 | under the loop invariant, `stop`'s answer is exactly `StopsAt` of the run at the current count |
| Run.LoopTest | kmeans.cpp:111 | a call of `stop` under the invariant establishes the loop invariant `Looping` |
| Run.LoopShrinks | kmeans.cpp:123-131 | the list a round computes is no longer than the snapshot, so `stop` can compare them |
| Run.LoopStep | kmeans.cpp:111-131 | a round taken because the test failed keeps `Looping` at the next count |
| Run.LoopExit | kmeans.cpp:111-132 | when the loop ends, the count is the first at which `StopsAt` holds (at most the cap plus one), the state is the run's state at that count, it keeps the coordinates and labels within `1..blocks`, and after a round it is settled and, below the cap, at the previous list's positions |
| Run.RunOutcome | kmeans.cpp:99-132 | the loop of a run started by the initializer ends with `Outcome` |
| Run.NoCrossedMean | kmeans.cpp:277-285 | a cluster whose every member is strictly nearer centroid `d` than centroid `b` cannot have its mean at `b` |
| Run.SettledLabel | kmeans.cpp:219-243 | a settled point's label is the id of its nearest centroid |
| Run.SettledHasId | kmeans.cpp:219-243 | after a settled assignment every cluster in use is an id of the list |
| Run.SettledIdIndex | kmeans.cpp:251-286 | the id of entry `i` of the recomputed list sits in the previous list at an index no smaller than `i` |
| Run.SettledMembersNearer | kmeans.cpp:219-243 | every member of the cluster of `last[j]` is strictly nearer `last[j]` than any earlier entry |
| Run.SettledEntry | kmeans.cpp:111-132 | when the recomputed list sits at the previous list's positions, its entry `i` is the previous list's entry `i` |
| Run.ConvergedIsFixedPoint | kmeans.cpp:111-132 | when the recomputed list sits at the positions of the previous list's first entries, it is that prefix, ids included, and another assign-and-recompute round reproduces both the labels and the list |
| Run.SettledPointStays | kmeans.cpp:129 | a settled point keeps its label when allocated against a prefix of the list that still holds its cluster's centroid |
| Driver.KMeans | kmeans.cpp:91-137 | fails only on a one-point block, leaving the points as they were. Otherwise it keeps every coordinate and reaches `Outcome`: it ran exactly until the first count where `StopsAt` holds (at most `maxIterations + 1` rounds), the points hold the labels of the run's state at that count, `final` is its list and `last` the list before; the labels lie in `1..blocks`, the list has at most `blocks` entries, after a round the labels are a fixed point of allocation against `last` and `final` is recomputed from them, and stopping below the cap means equal positions |
| Driver.Rounds | kmeans.cpp:111-132 | the loop leaves with `Looping` and the test true |
| Driver.Step | kmeans.cpp:123-131 | one pass of the body raises the count by one and keeps `Looping` |

## Left out

- `main` is not part of this model. It reads `k` and the file name from the command line and rejects
  `k < 2`. It reads the input file, and its `eof` loop can append one extra point: when the last read
  fails, `readInt` keeps the last `y` read, so the point appended is (last y, last y)
  (kmeans.cpp:49-60). It names and writes the output file and calls `system("pause")`. This is all I/O.
- The trace printing in `kmeans`, `getRandomCentroids`, `allocateToCluster` and `getNewCentroids`
  writes to the console only, so it is left out.
- IntArith.ISqrt: the source computes the distance in double precision with `pow` and `sqrt` and then
  truncates. The model uses the exact integer square root. The two agree while squared distances stay
  below 2^52, where the correctly rounded square root of every exactly representable integer truncates
  to the integer root; the model does not capture rounding beyond that.
- Points.ClusterSumX, Points.ClusterSumY: the coordinate sums are 32-bit `int` in the source (`xSum`
  and `ySum` at kmeans.cpp:179-180, `sumX` and `sumY` at kmeans.cpp:268-269). The model's integers are
  unbounded, so overflow of these sums is not modelled.
- Assigner.Dist: the coordinate differences at kmeans.cpp:226 and 234 are taken in 32-bit `int` before
  `pow` squares them in double. Overflow of these differences is not modelled.
- Initializer.GetRandomCentroids: on a one-point block the source divides by zero part-way through the
  scan, after relabelling the earlier points. The model detects the case before the scan and returns
  `InvalidPartition` with the points untouched.
- Driver.KMeans: `points` and the centroid lists are vectors of pointers in the source. They are
  modelled as values, so pointer aliasing between `oldCentroids` and `centroids` is not captured (the
  code never writes through it), and neither are the leaked allocations.
- Driver.KMeans: the rounds, the last centroid list and the final list are ghost outputs. They let the
  contract speak about the loop's end state, which the source does not return.
