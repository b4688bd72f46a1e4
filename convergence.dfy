/** The convergence test `stop` (kmeans.cpp:139-159): stop once the
    iteration cap is exceeded, or when every centroid of the new list sits,
    position by position, where the previous list had one. Cluster ids are
    not compared. */
module Convergence {
  import opened Points

  /** Centroid i of the new list has the coordinates of centroid i of the
      old one, for every index of the new list. */
  predicate SamePositions(oldCentroids: seq<Point>, centroids: seq<Point>)
    requires |centroids| <= |oldCentroids|
  {
    forall i :: 0 <= i < |centroids| ==> SamePosition(oldCentroids[i], centroids[i])
  }

  /** stop (kmeans.cpp:139-159). The source reads oldCentroids[i] for every
      index i of centroids, so the old list must be at least as long. */
  method Stop(currentIteration: int, maxIterations: int, oldCentroids: seq<Point>, centroids: seq<Point>)
    returns (done: bool)
    requires |centroids| <= |oldCentroids|
    ensures done <==> currentIteration > maxIterations || SamePositions(oldCentroids, centroids)
  {
    if currentIteration > maxIterations {
      return true;
    }
    var x := 0;
    while x < |centroids|
      invariant 0 <= x <= |centroids|
      invariant forall i :: 0 <= i < x ==> SamePosition(oldCentroids[i], centroids[i])
    {
      if oldCentroids[x].x != centroids[x].x {
        return false;
      }
      if oldCentroids[x].y != centroids[x].y {
        return false;
      }
      x := x + 1;
    }
    return true;
  }

  /** Only the first |centroids| entries of the old list matter. */
  lemma SamePositionsPrefix(oldCentroids: seq<Point>, prefix: seq<Point>, centroids: seq<Point>)
    requires |centroids| <= |prefix| <= |oldCentroids|
    requires oldCentroids[..|prefix|] == prefix
    ensures SamePositions(oldCentroids, centroids) <==> SamePositions(prefix, centroids)
  {
    assert forall i :: 0 <= i < |prefix| ==> oldCentroids[i] == prefix[i];
  }
}
