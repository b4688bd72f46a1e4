/** The assignment step `allocateToCluster` (kmeans.cpp:211-245): every
    point is relabelled with the cluster id of its nearest centroid, by
    truncated Euclidean distance; among equally near centroids the first
    one in the list wins. */
module Assigner {
  import opened IntArith
  import opened Points

  /** int(sqrt(pow(dx, 2) + pow(dy, 2))): the Euclidean distance, rounded
      down to an integer. */
  function Dist(p: Point, c: Point): (r: nat)
    ensures r * r <= SquaredDist(p, c) < (r + 1) * (r + 1)
  {
    ISqrt(SquaredDist(p, c))
  }

  /** pow(dx, 2) + pow(dy, 2), which is never negative. */
  function SquaredDist(p: Point, c: Point): nat
  {
    var dx, dy := p.x - c.x, p.y - c.y;
    assert dx * dx == Abs(dx) * Abs(dx) && dy * dy == Abs(dy) * Abs(dy);
    dx * dx + dy * dy
  }

  /** The index the source's inner loop settles on after looking at the
      first m centroids: the first one, replaced by a later one only when
      that one is strictly nearer. */
  function NearestIn(p: Point, cs: seq<Point>, m: nat): (b: nat)
    requires 1 <= m <= |cs|
    ensures b < m
  {
    if m == 1 then 0
    else
      var b := NearestIn(p, cs, m - 1);
      if Dist(p, cs[b]) > Dist(p, cs[m - 1]) then m - 1 else b
  }

  /** The nearest centroid found for p among all of cs. */
  function Nearest(p: Point, cs: seq<Point>): (b: nat)
    requires |cs| >= 1
    ensures b < |cs|
  {
    NearestIn(p, cs, |cs|)
  }

  /** The new label of p: the id of its nearest centroid, or its old label
      when there are no centroids (the inner loop then never runs). */
  function Assign(p: Point, cs: seq<Point>): (q: Point)
    ensures SamePosition(q, p)
    ensures |cs| == 0 ==> q == p
    ensures |cs| > 0 ==> exists j :: 0 <= j < |cs| && q.cluster == cs[j].cluster
  {
    if |cs| == 0 then p else p.(cluster := cs[Nearest(p, cs)].cluster)
  }

  /** The point sequence after allocateToCluster. */
  function AllocateAll(s: seq<Point>, cs: seq<Point>): (r: seq<Point>)
    ensures |r| == |s|
  {
    seq(|s|, i requires 0 <= i < |s| => Assign(s[i], cs))
  }

  /** The index kept after m centroids is the lowest index among the
      nearest of them: no centroid among the first m is nearer, and every
      centroid before it is strictly farther. */
  lemma {:induction false} NearestInMinimal(p: Point, cs: seq<Point>, m: nat)
    requires 1 <= m <= |cs|
    ensures forall j :: 0 <= j < m ==> Dist(p, cs[NearestIn(p, cs, m)]) <= Dist(p, cs[j])
    ensures forall j :: 0 <= j < NearestIn(p, cs, m) ==> Dist(p, cs[j]) > Dist(p, cs[NearestIn(p, cs, m)])
  {
    if m > 1 {
      NearestInMinimal(p, cs, m - 1);
    }
  }

  /** Nearest is characterised by being a lowest-index minimiser of the
      truncated distance: any index with that property is the one chosen. */
  lemma NearestIsFirstMinimum(p: Point, cs: seq<Point>, b: nat)
    requires |cs| >= 1
    ensures b == Nearest(p, cs) <==>
      b < |cs| &&
      (forall j :: 0 <= j < |cs| ==> Dist(p, cs[b]) <= Dist(p, cs[j])) &&
      (forall j :: 0 <= j < b ==> Dist(p, cs[j]) > Dist(p, cs[b]))
  {
    NearestInMinimal(p, cs, |cs|);
  }

  /** The scan over the first m centroids sees the same entries in any
      prefix of cs that covers them. */
  lemma {:induction false} NearestInPrefix(p: Point, cs: seq<Point>, m: nat, n: nat)
    requires 1 <= m <= n <= |cs|
    ensures NearestIn(p, cs[..n], m) == NearestIn(p, cs, m)
  {
    if m > 1 {
      NearestInPrefix(p, cs, m - 1, n);
      var b := NearestIn(p, cs, m - 1);
      assert cs[..n][b] == cs[b] && cs[..n][m - 1] == cs[m - 1];
    }
  }

  /** Once the scan over m2 centroids ends below m1, it had already
      settled there after m1 centroids: later entries only ever take over. */
  lemma {:induction false} NearestInSettled(p: Point, cs: seq<Point>, m1: nat, m2: nat)
    requires 1 <= m1 <= m2 <= |cs| && NearestIn(p, cs, m2) < m1
    ensures NearestIn(p, cs, m1) == NearestIn(p, cs, m2)
    decreases m2
  {
    if m1 < m2 {
      NearestInSettled(p, cs, m1, m2 - 1);
    }
  }

  /** The nearest centroid of cs, when it lies within the first n entries,
      is also the nearest centroid of that prefix. */
  lemma NearestOfPrefix(p: Point, cs: seq<Point>, n: nat)
    requires 1 <= n <= |cs| && Nearest(p, cs) < n
    ensures Nearest(p, cs[..n]) == Nearest(p, cs)
  {
    NearestInSettled(p, cs, n, |cs|);
    NearestInPrefix(p, cs, n, n);
  }

  /** The choice depends on the point's coordinates only, not its label. */
  lemma {:induction false} NearestInPosition(p: Point, q: Point, cs: seq<Point>, m: nat)
    requires 1 <= m <= |cs| && SamePosition(p, q)
    ensures NearestIn(p, cs, m) == NearestIn(q, cs, m)
  {
    if m > 1 {
      NearestInPosition(p, q, cs, m - 1);
      var b := NearestIn(p, cs, m - 1);
      DistPosition(p, q, cs[b]);
      DistPosition(p, q, cs[m - 1]);
    }
  }

  /** The distance depends on the point's coordinates only. */
  lemma DistPosition(p: Point, q: Point, c: Point)
    requires SamePosition(p, q)
    ensures Dist(p, c) == Dist(q, c)
  {
  }

  /** Allocating twice against the same centroids changes nothing more. */
  lemma AllocateIdempotent(s: seq<Point>, cs: seq<Point>)
    ensures AllocateAll(AllocateAll(s, cs), cs) == AllocateAll(s, cs)
  {
    var once := AllocateAll(s, cs);
    forall i | 0 <= i < |s|
      ensures Assign(once[i], cs) == once[i]
    {
      if |cs| > 0 {
        NearestInPosition(once[i], s[i], cs, |cs|);
      }
    }
  }

  /** After allocation every label is some centroid's id, or, with no
      centroids, the label the point already had. */
  lemma AllocateLabelsWithin(s: seq<Point>, cs: seq<Point>, lo: int, hi: int)
    requires LabelsWithin(cs, lo, hi)
    requires |cs| == 0 ==> LabelsWithin(s, lo, hi)
    ensures LabelsWithin(AllocateAll(s, cs), lo, hi)
  {
  }

  /** allocateToCluster (kmeans.cpp:211-245): relabels every point in place
      with its nearest centroid's id, keeping coordinates. */
  method AllocateToCluster(points: array<Point>, centroids: seq<Point>)
    modifies points
    ensures points[..] == AllocateAll(old(points[..]), centroids)
  {
    var x := 0;
    while x < points.Length
      invariant 0 <= x <= points.Length
      invariant forall i :: 0 <= i < x ==> points[i] == Assign(old(points[i]), centroids)
      invariant forall i :: x <= i < points.Length ==> points[i] == old(points[i])
    {
      ghost var p := points[x];
      ghost var before := points[..];
      var distance: int := -1;
      ghost var best := 0;
      var y := 0;
      while y < |centroids|
        invariant 0 <= y <= |centroids|
        invariant y == 0 ==> distance == -1 && points[x] == p
        invariant y > 0 ==> best == NearestIn(p, centroids, y) && distance == Dist(p, centroids[best])
        invariant y > 0 ==> points[x] == p.(cluster := centroids[best].cluster)
        invariant forall i :: 0 <= i < points.Length && i != x ==> points[i] == before[i]
      {
        DistPosition(points[x], p, centroids[y]);
        if distance == -1 {
          distance := Dist(points[x], centroids[y]);
          points[x] := points[x].(cluster := centroids[y].cluster);
          best := y;
        } else {
          var distance2 := Dist(points[x], centroids[y]);
          if distance > distance2 {
            distance := distance2;
            points[x] := points[x].(cluster := centroids[y].cluster);
            best := y;
          }
        }
        y := y + 1;
      }
      assert points[x] == Assign(p, centroids);
      x := x + 1;
    }
  }

  /** A strictly smaller truncated distance means a strictly smaller
      squared distance. */
  lemma NearerSquared(q: Point, b: Point, c: Point)
    requires Dist(q, c) < Dist(q, b)
    ensures SquaredDist(q, c) < SquaredDist(q, b)
  {
    RootLess(SquaredDist(q, c), SquaredDist(q, b));
  }

  /** A centroid C strictly nearer to q than B, in truncated distance, lies
      on q's side of the bisector of B and C with a margin: writing d for
      C - B, the product (q - B) . d is at least |dx| + |dy| and at least 1. */
  lemma CloserGap(q: Point, b: Point, c: Point)
    requires Dist(q, c) < Dist(q, b)
    ensures var dx, dy := c.x - b.x, c.y - b.y;
      (q.x - b.x) * dx + (q.y - b.y) * dy >= Abs(dx) + Abs(dy) &&
      (q.x - b.x) * dx + (q.y - b.y) * dy >= 1
  {
    NearerSquared(q, b, c);
    var u, v, dx, dy := q.x - b.x, q.y - b.y, c.x - b.x, c.y - b.y;
    assert SquaredDist(q, c) == (u - dx) * (u - dx) + (v - dy) * (v - dy);
    BisectorGap(u, v, dx, dy);
  }
}
