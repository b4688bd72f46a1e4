/** The deterministic initializer `getRandomCentroids` (kmeans.cpp:161-209).
    The points are cut, in input order, into consecutive blocks of
    p = n / k + 1 points (the last block may be shorter); every point of
    block c (counted from 1) is labelled c, and one centroid per block is
    emitted. The centroid divides the block's coordinate sums by `counter`,
    which at that moment is the block size minus one, not the block size;
    a block of a single point therefore divides by zero, which this model
    reports as InvalidPartition. */
module Initializer {
  import opened IntArith
  import opened Points

  datatype InitResult = Centroids(centroids: seq<Point>) | InvalidPartition

  /** The source's `partitions`: the block size n / k + 1. */
  function BlockSize(n: nat, k: int): (p: int)
    requires k >= 1
    ensures p >= 1
  {
    n / k + 1
  }

  /** The k blocks of size BlockSize(n, k) always hold more than n points. */
  lemma BlockSizeCovers(n: nat, k: int)
    requires k >= 1
    ensures n < k * BlockSize(n, k)
  {
    assert n == k * (n / k) + n % k;
  }

  /** Number of blocks, i.e. the label of the last point: ceil(n / p). */
  function NumBlocks(n: nat, p: int): nat
    requires p >= 1
  {
    if n == 0 then 0 else (n - 1) / p + 1
  }

  /** Number of points in block c when n points are cut into blocks of p. */
  function BlockLen(n: nat, p: int, c: int): nat
    requires p >= 1
  {
    var lo := (c - 1) * p;
    if n <= lo then 0 else if n - lo >= p then p else n - lo
  }

  /** The arithmetic test for a one-point block: every block is a single
      point when p == 1, and the last one is when n % p == 1. */
  predicate HasSingletonBlock(n: nat, p: int)
    requires p >= 1
  {
    n > 0 && (p == 1 || n % p == 1)
  }

  /** The labelling the initializer writes: point i goes to block i / p + 1. */
  function InitLabels(s: seq<Point>, p: int): (r: seq<Point>)
    requires p >= 1
    ensures |r| == |s|
  {
    seq(|s|, i requires 0 <= i < |s| => s[i].(cluster := i / p + 1))
  }

  /** The initial centroid of cluster c: its coordinate sums divided, with
      truncation, by its member count minus one. */
  function BlockCentroid(labelled: seq<Point>, c: int): (r: Point)
    requires ClusterCount(labelled, c) >= 2
    ensures r.cluster == c
  {
    var divisor := ClusterCount(labelled, c) - 1;
    Point(TruncDiv(ClusterSumX(labelled, c), divisor), TruncDiv(ClusterSumY(labelled, c), divisor), c)
  }

  /** The initial centroid of a block of n points is the block's mean
      over n - 1, not over n: n - 1 copies of it miss the coordinate sums
      by less than n - 1 on each axis. */
  lemma BlockCentroidNear(labelled: seq<Point>, c: int)
    requires ClusterCount(labelled, c) >= 2
    ensures Abs(ClusterSumX(labelled, c) - (ClusterCount(labelled, c) - 1) * BlockCentroid(labelled, c).x)
            < ClusterCount(labelled, c) - 1
    ensures Abs(ClusterSumY(labelled, c) - (ClusterCount(labelled, c) - 1) * BlockCentroid(labelled, c).y)
            < ClusterCount(labelled, c) - 1
  {
    var d, sx, sy := ClusterCount(labelled, c) - 1, ClusterSumX(labelled, c), ClusterSumY(labelled, c);
    var r := BlockCentroid(labelled, c);
    assert r.x == TruncDiv(sx, d) && r.y == TruncDiv(sy, d);
    TruncDivNear(sx, d);
    TruncDivNear(sy, d);
  }

  /** What `getRandomCentroids` returns for the points s and k clusters:
      InvalidPartition when a block would divide by zero, and otherwise one
      centroid per block, in block order. */
  function InitCentroids(s: seq<Point>, k: int): (r: InitResult)
    requires k >= 1
    ensures r.InvalidPartition? <==> HasSingletonBlock(|s|, BlockSize(|s|, k))
    ensures r.Centroids? ==> |r.centroids| == NumBlocks(|s|, BlockSize(|s|, k)) <= k
    ensures r.Centroids? ==> forall j :: 0 <= j < |r.centroids| ==> r.centroids[j].cluster == j + 1
  {
    var p := BlockSize(|s|, k);
    if HasSingletonBlock(|s|, p) then InvalidPartition
    else
      var m := NumBlocks(|s|, p);
      NumBlocksAtMostK(|s|, k);
      InitBlockCounts(s, p);
      Centroids(FirstCentroids(InitLabels(s, p), m))
  }

  /** The centroids of blocks 1..m, in block order. */
  function FirstCentroids(labelled: seq<Point>, m: nat): (r: seq<Point>)
    requires forall c :: 1 <= c <= m ==> ClusterCount(labelled, c) >= 2
    ensures |r| == m
  {
    seq(m, j requires 0 <= j < m => BlockCentroid(labelled, j + 1))
  }

  /** Point i lies in block c exactly when (c - 1) * p <= i < c * p. */
  lemma LabelInBlock(i: nat, p: int, c: int)
    requires p >= 1 && c >= 1
    ensures i / p + 1 == c <==> (c - 1) * p <= i < (c - 1) * p + p
  {
    if (c - 1) * p <= i < (c - 1) * p + p {
      DivModUnique(i, p, c - 1, i - (c - 1) * p);
    }
  }

  /** The labelling forms contiguous blocks: block c holds BlockLen points. */
  lemma {:induction false} BlockCount(s: seq<Point>, p: int, c: int)
    requires p >= 1 && c >= 1
    ensures ClusterCount(InitLabels(s, p), c) == BlockLen(|s|, p, c)
  {
    if s != [] {
      var n := |s| - 1;
      assert InitLabels(s, p)[..n] == InitLabels(s[..n], p);
      BlockCount(s[..n], p, c);
      LabelInBlock(n, p, c);
    }
  }

  /** Every block but the last is full; the last holds (n - 1) % p + 1 points. */
  lemma BlockLenOf(n: nat, p: int, c: int)
    requires p >= 1 && 1 <= c <= NumBlocks(n, p)
    ensures c < NumBlocks(n, p) ==> BlockLen(n, p, c) == p
    ensures c == NumBlocks(n, p) ==> BlockLen(n, p, c) == (n - 1) % p + 1
    ensures 1 <= BlockLen(n, p, c) <= p
  {
    var q := (n - 1) / p;
    assert n - 1 == q * p + (n - 1) % p;
    if c - 1 < q {
      MulLe(c, q, p);
      assert (c - 1) * p + p == c * p;
    } else {
      assert c - 1 == q;
    }
  }

  /** A block of exactly one point exists iff the arithmetic test holds. */
  lemma SingletonBlockIff(n: nat, p: int)
    requires p >= 1
    ensures HasSingletonBlock(n, p) <==> exists c :: 1 <= c <= NumBlocks(n, p) && BlockLen(n, p, c) == 1
  {
    var m := NumBlocks(n, p);
    if HasSingletonBlock(n, p) {
      BlockLenOf(n, p, m);
      if p != 1 {
        DivModUnique(n - 1, p, n / p, 0);
      }
      assert BlockLen(n, p, m) == 1;
    }
    if c :| 1 <= c <= m && BlockLen(n, p, c) == 1 {
      BlockLenOf(n, p, c);
      if p >= 2 && c == m {
        DivStepInside(n - 1, p);
      }
    }
  }

  /** Without a one-point block every block has a non-zero divisor. */
  lemma InitBlockCounts(s: seq<Point>, p: int)
    requires p >= 1 && !HasSingletonBlock(|s|, p)
    ensures forall c :: 1 <= c <= NumBlocks(|s|, p) ==> ClusterCount(InitLabels(s, p), c) >= 2
  {
    SingletonBlockIff(|s|, p);
    forall c | 1 <= c <= NumBlocks(|s|, p)
      ensures ClusterCount(InitLabels(s, p), c) >= 2
    {
      BlockCount(s, p, c);
      BlockLenOf(|s|, p, c);
    }
  }

  /** There are at most k blocks, so at most k initial centroids. */
  lemma NumBlocksAtMostK(n: nat, k: int)
    requires k >= 1
    ensures NumBlocks(n, BlockSize(n, k)) <= k
  {
    var p := BlockSize(n, k);
    if n > 0 && (n - 1) / p >= k {
      assert n - 1 == (n - 1) / p * p + (n - 1) % p;
      MulLe(k, (n - 1) / p, p);
    }
  }

  /** The labels start at 1, never decrease, grow by at most one from a
      point to the next, and end at the number of blocks; coordinates are
      kept. */
  lemma InitLabelsShape(s: seq<Point>, p: int)
    requires p >= 1
    ensures |s| > 0 ==> InitLabels(s, p)[0].cluster == 1
    ensures |s| > 0 ==> InitLabels(s, p)[|s| - 1].cluster == NumBlocks(|s|, p)
    ensures forall i, j :: 0 <= i <= j < |s| ==> InitLabels(s, p)[i].cluster <= InitLabels(s, p)[j].cluster
    ensures forall i :: 0 <= i < |s| - 1 ==> InitLabels(s, p)[i + 1].cluster <= InitLabels(s, p)[i].cluster + 1
    ensures LabelsWithin(InitLabels(s, p), 1, NumBlocks(|s|, p))
    ensures forall i :: 0 <= i < |s| ==> SamePosition(InitLabels(s, p)[i], s[i])
  {
    var r := InitLabels(s, p);
    forall i, j | 0 <= i <= j < |s|
      ensures r[i].cluster <= r[j].cluster
    {
      DivMonotone(i, j, p);
    }
    forall i | 0 <= i < |s| - 1
      ensures r[i + 1].cluster <= r[i].cluster + 1
    {
      if i % p < p - 1 {
        DivStepInside(i, p);
      } else {
        DivStepBoundary(i, p);
      }
    }
    forall i | 0 <= i < |s|
      ensures 1 <= r[i].cluster <= NumBlocks(|s|, p)
    {
      DivMonotone(i, |s| - 1, p);
    }
  }

  /** The state of the initializer's scan after x points: `counter` and the
      sums cover the points seen so far of the open block `cur`, and
      `centroids` holds the centroids of the closed blocks. */
  ghost predicate Scan(s: seq<Point>, p: int, x: int, counter: int, cur: int,
                       xSum: int, ySum: int, centroids: seq<Point>)
  {
    p >= 1 && !HasSingletonBlock(|s|, p) && 0 <= x <= |s| &&
    |centroids| <= NumBlocks(|s|, p) &&
    (forall c :: 1 <= c <= NumBlocks(|s|, p) ==> ClusterCount(InitLabels(s, p), c) >= 2) &&
    centroids == FirstCentroids(InitLabels(s, p), |centroids|) &&
    (x < |s| ==>
      counter == x % p && cur == x / p + 1 && |centroids| == cur - 1 &&
      counter == ClusterCount(InitLabels(s, p)[..x], cur) &&
      xSum == ClusterSumX(InitLabels(s, p)[..x], cur) &&
      ySum == ClusterSumY(InitLabels(s, p)[..x], cur)) &&
    (x == |s| ==> |centroids| == NumBlocks(|s|, p))
  }

  /** The scan starts with nothing seen. */
  lemma ScanStart(s: seq<Point>, p: int)
    requires p >= 1 && !HasSingletonBlock(|s|, p)
    ensures Scan(s, p, 0, 0, 1, 0, 0, [])
  {
    InitBlockCounts(s, p);
    assert InitLabels(s, p)[..0] == [];
  }

  /** Point x does not end its block: it joins the running count and sums. */
  lemma ScanContinue(s: seq<Point>, p: int, x: nat, counter: int, cur: int,
                     xSum: int, ySum: int, centroids: seq<Point>)
    requires Scan(s, p, x, counter, cur, xSum, ySum, centroids)
    requires x < |s| && counter + 1 != p && x + 1 != |s|
    ensures Scan(s, p, x + 1, counter + 1, cur, xSum + s[x].x, ySum + s[x].y, centroids)
  {
    PrefixStep(InitLabels(s, p), x, cur);
    DivStepInside(x, p);
  }

  /** Point x ends its block: the block's centroid is emitted, dividing by
      `counter`, which is non-zero, and the next block opens empty. */
  lemma ScanClose(s: seq<Point>, p: int, x: nat, counter: int, cur: int,
                  xSum: int, ySum: int, centroids: seq<Point>)
    requires Scan(s, p, x, counter, cur, xSum, ySum, centroids)
    requires x < |s| && (counter + 1 == p || x + 1 == |s|)
    ensures counter > 0
    ensures Scan(s, p, x + 1, 0, cur + 1, 0, 0,
                 centroids + [Point(TruncDiv(xSum + s[x].x, counter), TruncDiv(ySum + s[x].y, counter), cur)])
  {
    var labels := InitLabels(s, p);
    PrefixStep(labels, x, cur);
    DivMonotone(x, |s| - 1, p);
    if counter + 1 != p {
      DivStepInside(x, p);
    } else {
      DivStepBoundary(x, p);
    }
    LaterBlocks(s, p, x);
    StatsOfPrefix(labels, x + 1, cur);
    var newPoint := Point(TruncDiv(xSum + s[x].x, counter), TruncDiv(ySum + s[x].y, counter), cur);
    assert newPoint == BlockCentroid(labels, cur);
    assert FirstCentroids(labels, |centroids| + 1) == centroids + [newPoint];
    if x + 1 < |s| {
      EarlierBlocks(s, p, x);
      ClusterCountOutside(labels[..x + 1], 1, cur, cur + 1);
    }
  }

  /** getRandomCentroids (kmeans.cpp:161-209): labels the points in place
      and returns the initial centroids, or InvalidPartition, leaving the
      points untouched, when some block would divide by zero. */
  method GetRandomCentroids(points: array<Point>, k: int) returns (r: InitResult)
    requires k >= 1
    modifies points
    ensures r == InitCentroids(old(points[..]), k)
    ensures r.InvalidPartition? ==> points[..] == old(points[..])
    ensures r.Centroids? ==> points[..] == InitLabels(old(points[..]), BlockSize(points.Length, k))
  {
    ghost var s := points[..];
    var n := points.Length;
    var partitions := n / k + 1;
    assert partitions == BlockSize(n, k);
    if n > 0 && (partitions == 1 || n % partitions == 1) {
      return InvalidPartition;
    }
    ghost var labels := InitLabels(s, partitions);
    var counter := 0;
    var currentCluster := 1;
    var centroids: seq<Point> := [];
    var xSum, ySum := 0, 0;
    ScanStart(s, partitions);
    var x := 0;
    while x < n
      invariant 0 <= x <= n
      invariant forall i :: 0 <= i < x ==> points[i] == labels[i]
      invariant forall i :: x <= i < n ==> points[i] == s[i]
      invariant Scan(s, partitions, x, counter, currentCluster, xSum, ySum, centroids)
    {
      points[x] := points[x].(cluster := currentCluster);
      xSum := xSum + points[x].x;
      ySum := ySum + points[x].y;
      if counter + 1 == partitions || x + 1 == n {
        ScanClose(s, partitions, x, counter, currentCluster, xSum - s[x].x, ySum - s[x].y, centroids);
        var newPoint := Point(TruncDiv(xSum, counter), TruncDiv(ySum, counter), currentCluster);
        centroids := centroids + [newPoint];
        counter := 0;
        currentCluster := currentCluster + 1;
        xSum := 0;
        ySum := 0;
      } else {
        ScanContinue(s, partitions, x, counter, currentCluster, xSum - s[x].x, ySum - s[x].y, centroids);
        counter := counter + 1;
      }
      x := x + 1;
    }
    assert points[..] == labels;
    r := Centroids(centroids);
  }

  /** Once point x closes its block, every later point is in a later block. */
  lemma LaterBlocks(s: seq<Point>, p: int, x: nat)
    requires p >= 1 && x < |s|
    requires x % p == p - 1 || x + 1 == |s|
    ensures forall i :: x + 1 <= i < |s| ==> InitLabels(s, p)[i].cluster != InitLabels(s, p)[x].cluster
  {
    if x + 1 < |s| {
      DivStepBoundary(x, p);
      forall i | x + 1 <= i < |s|
        ensures i / p != x / p
      {
        DivMonotone(x + 1, i, p);
      }
    }
  }

  /** Every point up to x is in block x / p + 1 or an earlier one. */
  lemma EarlierBlocks(s: seq<Point>, p: int, x: nat)
    requires p >= 1 && x < |s|
    ensures LabelsWithin(InitLabels(s, p)[..x + 1], 1, x / p + 1)
  {
    forall i | 0 <= i < x + 1
      ensures 1 <= i / p + 1 <= x / p + 1
    {
      DivMonotone(i, x, p);
    }
  }

  /** Four points and k = 2 give blocks of 3 and 1 points; the one-point
      block makes the source divide by zero. */
  lemma FourPointsTwoClusters()
    ensures InitCentroids([Point(0, 0, 0), Point(0, 2, 0), Point(10, 0, 0), Point(10, 2, 0)], 2) == InvalidPartition
  {
  }

  /** Five points and k = 2 give blocks of 3 and 2 points, each averaged
      over one point fewer than it holds: the second centroid lands at
      (20, 2), outside its own block. */
  lemma FivePointsTwoClusters()
    ensures InitCentroids([Point(0, 0, 0), Point(0, 2, 0), Point(0, 4, 0), Point(10, 0, 0), Point(10, 2, 0)], 2)
      == Centroids([Point(0, 3, 1), Point(20, 2, 2)])
  {
    var s := [Point(0, 0, 0), Point(0, 2, 0), Point(0, 4, 0), Point(10, 0, 0), Point(10, 2, 0)];
    assert BlockSize(5, 2) == 3 && NumBlocks(5, 3) == 2 && !HasSingletonBlock(5, 3);
    var t := InitLabels(s, 3);
    assert t == [Point(0, 0, 1), Point(0, 2, 1), Point(0, 4, 1), Point(10, 0, 2), Point(10, 2, 2)];
    assert t[..0] == [] && t[..5] == t;
    PrefixStep(t, 0, 1); PrefixStep(t, 1, 1); PrefixStep(t, 2, 1); PrefixStep(t, 3, 1); PrefixStep(t, 4, 1);
    PrefixStep(t, 0, 2); PrefixStep(t, 1, 2); PrefixStep(t, 2, 2); PrefixStep(t, 3, 2); PrefixStep(t, 4, 2);
    assert BlockCentroid(t, 1) == Point(0, 3, 1);
    assert BlockCentroid(t, 2) == Point(20, 2, 2);
    assert FirstCentroids(t, 2) == [Point(0, 3, 1), Point(20, 2, 2)];
  }

  /** Five points at the origin with k = 2: blocks of 3 and 2 points, and
      both initial centroids at the origin. */
  lemma FiveOriginPoints()
    ensures var s := [Point(0, 0, 0), Point(0, 0, 0), Point(0, 0, 0), Point(0, 0, 0), Point(0, 0, 0)];
      BlockSize(5, 2) == 3 && !HasSingletonBlock(5, 3) &&
      InitLabels(s, 3) == [Point(0, 0, 1), Point(0, 0, 1), Point(0, 0, 1), Point(0, 0, 2), Point(0, 0, 2)] &&
      InitCentroids(s, 2) == Centroids([Point(0, 0, 1), Point(0, 0, 2)])
  {
    var s := [Point(0, 0, 0), Point(0, 0, 0), Point(0, 0, 0), Point(0, 0, 0), Point(0, 0, 0)];
    assert BlockSize(5, 2) == 3 && NumBlocks(5, 3) == 2 && !HasSingletonBlock(5, 3);
    var t := InitLabels(s, 3);
    assert t == [Point(0, 0, 1), Point(0, 0, 1), Point(0, 0, 1), Point(0, 0, 2), Point(0, 0, 2)];
    assert t[..0] == [] && t[..5] == t;
    PrefixStep(t, 0, 1); PrefixStep(t, 1, 1); PrefixStep(t, 2, 1); PrefixStep(t, 3, 1); PrefixStep(t, 4, 1);
    PrefixStep(t, 0, 2); PrefixStep(t, 1, 2); PrefixStep(t, 2, 2); PrefixStep(t, 3, 2); PrefixStep(t, 4, 2);
    assert BlockCentroid(t, 1) == Point(0, 0, 1);
    assert BlockCentroid(t, 2) == Point(0, 0, 2);
    assert FirstCentroids(t, 2) == [Point(0, 0, 1), Point(0, 0, 2)];
  }
}
