/** The `point` record shared by points and centroids, and the per-cluster
    statistics (member count and coordinate sums) that both the initializer
    and the centroid update compute with running accumulators. */
module Points {

  /** A 2-D integer point with its cluster label. For a centroid the label
      is the cluster's own id. */
  datatype Point = Point(x: int, y: int, cluster: int)

  /** Same coordinates, whatever the labels. */
  predicate SamePosition(p: Point, q: Point) {
    p.x == q.x && p.y == q.y
  }

  /** Two point sequences agree position by position on coordinates. */
  predicate SamePlaces(a: seq<Point>, b: seq<Point>) {
    |a| == |b| && forall i :: 0 <= i < |a| ==> SamePosition(a[i], b[i])
  }

  /** Number of points of s labelled c. */
  function ClusterCount(s: seq<Point>, c: int): (n: nat)
    ensures n <= |s|
  {
    if s == [] then 0
    else ClusterCount(s[..|s| - 1], c) + (if s[|s| - 1].cluster == c then 1 else 0)
  }

  /** Sum of the x coordinates of the points of s labelled c. */
  function ClusterSumX(s: seq<Point>, c: int): int {
    if s == [] then 0
    else ClusterSumX(s[..|s| - 1], c) + (if s[|s| - 1].cluster == c then s[|s| - 1].x else 0)
  }

  /** Sum of the y coordinates of the points of s labelled c. */
  function ClusterSumY(s: seq<Point>, c: int): int {
    if s == [] then 0
    else ClusterSumY(s[..|s| - 1], c) + (if s[|s| - 1].cluster == c then s[|s| - 1].y else 0)
  }

  /** Extending a prefix of s by one point updates the statistics of the
      cluster that point belongs to, and of no other. */
  lemma PrefixStep(s: seq<Point>, x: nat, c: int)
    requires x < |s|
    ensures ClusterCount(s[..x + 1], c) == ClusterCount(s[..x], c) + (if s[x].cluster == c then 1 else 0)
    ensures ClusterSumX(s[..x + 1], c) == ClusterSumX(s[..x], c) + (if s[x].cluster == c then s[x].x else 0)
    ensures ClusterSumY(s[..x + 1], c) == ClusterSumY(s[..x], c) + (if s[x].cluster == c then s[x].y else 0)
  {
    assert s[..x + 1][..x] == s[..x];
  }

  /** Every label of s lies in lo..hi. */
  predicate LabelsWithin(s: seq<Point>, lo: int, hi: int) {
    forall i :: 0 <= i < |s| ==> lo <= s[i].cluster <= hi
  }

  /** A cluster has members exactly when some point carries its label. */
  lemma {:induction false} ClusterCountPositive(s: seq<Point>, c: int)
    ensures ClusterCount(s, c) > 0 <==> exists i :: 0 <= i < |s| && s[i].cluster == c
  {
    if s != [] {
      var t := s[..|s| - 1];
      ClusterCountPositive(t, c);
      if ClusterCount(t, c) > 0 {
        var i :| 0 <= i < |t| && t[i].cluster == c;
        assert s[i].cluster == c;
      }
      if s[|s| - 1].cluster != c && (exists i :: 0 <= i < |s| && s[i].cluster == c) {
        var i :| 0 <= i < |s| && s[i].cluster == c;
        assert t[i].cluster == c;
      }
    }
  }

  /** A cluster without members has zero coordinate sums. */
  lemma {:induction false} EmptyClusterSums(s: seq<Point>, c: int)
    requires ClusterCount(s, c) == 0
    ensures ClusterSumX(s, c) == 0 && ClusterSumY(s, c) == 0
  {
    if s != [] {
      EmptyClusterSums(s[..|s| - 1], c);
    }
  }

  /** A label outside the range in use has no members. */
  lemma ClusterCountOutside(s: seq<Point>, lo: int, hi: int, c: int)
    requires LabelsWithin(s, lo, hi) && !(lo <= c <= hi)
    ensures ClusterCount(s, c) == 0
    ensures ClusterSumX(s, c) == 0 && ClusterSumY(s, c) == 0
  {
    ClusterCountPositive(s, c);
    EmptyClusterSums(s, c);
  }

  /** Points after position m that are not labelled c add nothing to the
      statistics of cluster c. */
  lemma {:induction false} StatsOfPrefix(s: seq<Point>, m: nat, c: int)
    requires m <= |s|
    requires forall i :: m <= i < |s| ==> s[i].cluster != c
    ensures ClusterCount(s, c) == ClusterCount(s[..m], c)
    ensures ClusterSumX(s, c) == ClusterSumX(s[..m], c)
    ensures ClusterSumY(s, c) == ClusterSumY(s[..m], c)
  {
    if m < |s| {
      var t := s[..|s| - 1];
      assert t[..m] == s[..m];
      StatsOfPrefix(t, m, c);
    } else {
      assert s[..m] == s;
    }
  }

  /** One more member, at least g along (dx, dy) past (ox, oy), raises the
      gap of the sums by at least g. */
  lemma GapStep(sx: int, sy: int, n: int, p: Point, ox: int, oy: int, dx: int, dy: int, g: int)
    requires (sx - n * ox) * dx + (sy - n * oy) * dy >= n * g
    requires (p.x - ox) * dx + (p.y - oy) * dy >= g
    ensures (sx + p.x - (n + 1) * ox) * dx + (sy + p.y - (n + 1) * oy) * dy >= (n + 1) * g
  {
    assert (sx + p.x - (n + 1) * ox) * dx == (sx - n * ox) * dx + (p.x - ox) * dx;
    assert (sy + p.y - (n + 1) * oy) * dy == (sy - n * oy) * dy + (p.y - oy) * dy;
    assert (n + 1) * g == n * g + g;
  }

  /** If every member of cluster c lies at least g along the direction
      (dx, dy) past the point (ox, oy), then so do the coordinate sums,
      measured from n copies of (ox, oy), by at least n * g. */
  lemma {:induction false} ClusterGapSum(s: seq<Point>, c: int, ox: int, oy: int, dx: int, dy: int, g: int)
    requires forall i :: 0 <= i < |s| && s[i].cluster == c ==> (s[i].x - ox) * dx + (s[i].y - oy) * dy >= g
    ensures (ClusterSumX(s, c) - ClusterCount(s, c) * ox) * dx + (ClusterSumY(s, c) - ClusterCount(s, c) * oy) * dy
            >= ClusterCount(s, c) * g
  {
    if s != [] {
      var t, p := s[..|s| - 1], s[|s| - 1];
      ClusterGapSum(t, c, ox, oy, dx, dy, g);
      if p.cluster == c {
        GapStep(ClusterSumX(t, c), ClusterSumY(t, c), ClusterCount(t, c), p, ox, oy, dx, dy, g);
      }
    }
  }
}
