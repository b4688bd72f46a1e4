/** The centroid update `getNewCentroids` (kmeans.cpp:247-291): for every
    cluster id 1..k with at least one member, a centroid at the truncating
    integer mean of its members; empty clusters are skipped. */
module Updater {
  import opened IntArith
  import opened Points

  /** The centroid of cluster c: coordinate sums over member count, each
      truncated toward zero. */
  function MeanCentroid(s: seq<Point>, c: int): (r: Point)
    requires ClusterCount(s, c) > 0
    ensures r.cluster == c
  {
    var n := ClusterCount(s, c);
    Point(TruncDiv(ClusterSumX(s, c), n), TruncDiv(ClusterSumY(s, c), n), c)
  }

  /** n copies of a cluster's centroid fall short of, or exceed, the
      coordinate sums of its n members by less than n on each axis: the
      centroid is the mean up to truncation. */
  lemma MeanNearExact(s: seq<Point>, c: int)
    requires ClusterCount(s, c) > 0
    ensures Abs(ClusterSumX(s, c) - ClusterCount(s, c) * MeanCentroid(s, c).x) < ClusterCount(s, c)
    ensures Abs(ClusterSumY(s, c) - ClusterCount(s, c) * MeanCentroid(s, c).y) < ClusterCount(s, c)
  {
    var n, sx, sy := ClusterCount(s, c), ClusterSumX(s, c), ClusterSumY(s, c);
    var r := MeanCentroid(s, c);
    assert r.x == TruncDiv(sx, n) && r.y == TruncDiv(sy, n);
    TruncDivNear(sx, n);
    TruncDivNear(sy, n);
  }

  /** The centroid list getNewCentroids returns after looking at the
      cluster ids 1..m. */
  function NewCentroids(s: seq<Point>, m: int): seq<Point>
    decreases m
  {
    if m <= 0 then []
    else NewCentroids(s, m - 1) + (if ClusterCount(s, m) > 0 then [MeanCentroid(s, m)] else [])
  }

  /** The ids of a centroid list increase strictly. */
  predicate IncreasingIds(cs: seq<Point>) {
    forall i, j :: 0 <= i < j < |cs| ==> cs[i].cluster < cs[j].cluster
  }

  /** NewCentroids lists, in strictly increasing id order, only non-empty
      clusters among 1..m, each at the mean of its members. */
  lemma {:induction false} NewCentroidsSound(s: seq<Point>, m: int)
    ensures IncreasingIds(NewCentroids(s, m))
    ensures LabelsWithin(NewCentroids(s, m), 1, m)
    ensures forall i :: 0 <= i < |NewCentroids(s, m)| ==>
      ClusterCount(s, NewCentroids(s, m)[i].cluster) > 0 &&
      NewCentroids(s, m)[i] == MeanCentroid(s, NewCentroids(s, m)[i].cluster)
    ensures m >= 0 ==> |NewCentroids(s, m)| <= m
    decreases m
  {
    if m > 0 {
      NewCentroidsSound(s, m - 1);
      IncreasingIdsBound(NewCentroids(s, m), m);
    }
  }

  /** Some centroid of cs carries the id c. */
  predicate HasId(cs: seq<Point>, c: int) {
    exists i :: 0 <= i < |cs| && cs[i].cluster == c
  }

  /** Appending a centroid adds exactly its id. */
  lemma HasIdAppend(cs: seq<Point>, q: Point, c: int)
    ensures HasId(cs + [q], c) <==> HasId(cs, c) || q.cluster == c
  {
    if HasId(cs, c) {
      var i :| 0 <= i < |cs| && cs[i].cluster == c;
      assert (cs + [q])[i] == cs[i];
    }
    if q.cluster == c {
      assert (cs + [q])[|cs|] == q;
    }
    if HasId(cs + [q], c) && q.cluster != c {
      var i :| 0 <= i < |cs + [q]| && (cs + [q])[i].cluster == c;
      assert cs[i] == (cs + [q])[i];
    }
  }

  /** Every non-empty cluster among 1..m has its centroid in NewCentroids. */
  lemma {:induction false} NewCentroidsComplete(s: seq<Point>, m: int)
    ensures forall c :: 1 <= c <= m && ClusterCount(s, c) > 0 ==> HasId(NewCentroids(s, m), c)
    decreases m
  {
    if m > 0 {
      NewCentroidsComplete(s, m - 1);
      var prev := NewCentroids(s, m - 1);
      if ClusterCount(s, m) > 0 {
        var q := MeanCentroid(s, m);
        assert NewCentroids(s, m) == prev + [q];
        forall c | 1 <= c <= m && ClusterCount(s, c) > 0
          ensures HasId(NewCentroids(s, m), c)
        {
          HasIdAppend(prev, q, c);
        }
      } else {
        assert NewCentroids(s, m) == prev;
      }
    }
  }

  /** Ids that increase strictly within 1..bound leave room for at most
      bound centroids. */
  lemma {:induction false} IncreasingIdsBound(cs: seq<Point>, bound: int)
    requires 0 <= bound && IncreasingIds(cs) && LabelsWithin(cs, 1, bound)
    ensures |cs| <= bound
  {
    if cs != [] {
      var init := cs[..|cs| - 1];
      var last := cs[|cs| - 1].cluster;
      assert forall i :: 0 <= i < |init| ==> init[i] == cs[i];
      assert 1 <= last <= bound;
      assert LabelsWithin(init, 1, last - 1);
      IncreasingIdsBound(init, last - 1);
    }
  }

  /** The new centroids only name clusters that have members, so with all
      labels in 1..bound the list has at most bound entries. */
  lemma NewCentroidsWithin(s: seq<Point>, m: int, bound: int)
    requires 0 <= bound && LabelsWithin(s, 1, bound)
    ensures LabelsWithin(NewCentroids(s, m), 1, bound)
    ensures |NewCentroids(s, m)| <= bound
  {
    var r := NewCentroids(s, m);
    NewCentroidsSound(s, m);
    forall i | 0 <= i < |r|
      ensures 1 <= r[i].cluster <= bound
    {
      if !(1 <= r[i].cluster <= bound) {
        ClusterCountOutside(s, 1, bound, r[i].cluster);
      }
    }
    IncreasingIdsBound(r, bound);
  }

  /** getNewCentroids (kmeans.cpp:247-291): one centroid per non-empty
      cluster id 1..k, computed with counting loops; the points are only
      read. */
  method GetNewCentroids(points: array<Point>, k: int) returns (centroids: seq<Point>)
    ensures centroids == NewCentroids(points[..], k)
  {
    ghost var s := points[..];
    centroids := [];
    var x := 0;
    while x < k
      invariant 0 <= x && (x <= k || x == 0)
      invariant centroids == NewCentroids(s, x)
    {
      var cluster := x + 1;
      var sumX, sumY, counter := 0, 0, 0;
      var y := 0;
      while y < points.Length
        invariant 0 <= y <= points.Length
        invariant counter == ClusterCount(s[..y], cluster)
        invariant sumX == ClusterSumX(s[..y], cluster)
        invariant sumY == ClusterSumY(s[..y], cluster)
      {
        PrefixStep(s, y, cluster);
        if points[y].cluster == cluster {
          sumX := sumX + points[y].x;
          sumY := sumY + points[y].y;
          counter := counter + 1;
        }
        y := y + 1;
      }
      assert s[..y] == s;
      if counter != 0 {
        centroids := centroids + [Point(TruncDiv(sumX, counter), TruncDiv(sumY, counter), cluster)];
      }
      x := x + 1;
    }
  }
}
