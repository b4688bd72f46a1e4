/** The driver `kmeans` (kmeans.cpp:91-137) as an imperative method over
    the points array, proved against the run of module Run. */
module Driver {
  import opened Points
  import opened Initializer
  import opened Assigner
  import opened Updater
  import opened Convergence
  import opened Run

  /** kmeans (kmeans.cpp:91-137). ok is false, and the points untouched,
      when the initializer would divide by zero. Otherwise the points keep
      their positions and the run from the initializer's state has reached
      Outcome: the loop ran `rounds` times, the first count at which
      StopsAt holds; the points carry the labels of that state of the run,
      `final` is its list and `last` the list of the round before. */
  method KMeans(points: array<Point>, k: int, maxIterations: nat)
    returns (ok: bool, ghost rounds: nat, ghost last: seq<Point>, ghost final: seq<Point>)
    requires k >= 1
    modifies points
    ensures ok <==> !HasSingletonBlock(points.Length, BlockSize(points.Length, k))
    ensures !ok ==> points[..] == old(points[..])
    ensures SamePlaces(points[..], old(points[..]))
    ensures ok ==> Outcome(old(points[..]), k, maxIterations, points[..], rounds, last, final)
  {
    ghost var s0 := points[..];
    var init := GetRandomCentroids(points, k);
    if init.InvalidPartition? {
      return false, 0, [], [];
    }
    var centroids := init.centroids;
    ghost var start, blocks := Start(s0, k), NumBlocks(|s0|, BlockSize(|s0|, k));
    StartSound(s0, k);

    var oldCentroids: seq<Point> := [];
    var x := 0;
    while x < |centroids|
      invariant 0 <= x <= |centroids|
      invariant oldCentroids == Placeholders(x)
    {
      oldCentroids := oldCentroids + [Point(0, 0, 0)];
      x := x + 1;
    }

    ProgressStart(start, k, blocks, maxIterations, oldCentroids);
    var done := Stop(0, maxIterations, oldCentroids, centroids);
    LoopTest(start, k, blocks, maxIterations, 0, points[..], oldCentroids, centroids, [], done);
    var iterations;
    iterations, oldCentroids, centroids, last := Rounds(points, k, maxIterations, start, blocks, oldCentroids, centroids, done);
    RunOutcome(s0, k, maxIterations, iterations, points[..], oldCentroids, centroids, last);
    ok, rounds, final := true, iterations, centroids;
  }

  /** The loop of kmeans (kmeans.cpp:111-132), entered with the state
      and the answer of the first stop test: rounds are taken while the
      test fails. It leaves when the test holds, with the counter at the
      first count at which it does. */
  method Rounds(points: array<Point>, k: int, maxIterations: nat, ghost start: RunState, ghost blocks: nat,
                oldCentroids0: seq<Point>, centroids0: seq<Point>, done0: bool)
    returns (iterations: nat, oldCentroids: seq<Point>, centroids: seq<Point>, ghost last: seq<Point>)
    requires Looping(start, k, blocks, maxIterations, 0, points[..], oldCentroids0, centroids0, [], done0)
    modifies points
    ensures Looping(start, k, blocks, maxIterations, iterations, points[..], oldCentroids, centroids, last, true)
  {
    iterations, oldCentroids, centroids, last := 0, oldCentroids0, centroids0, [];
    var done := done0;
    while !done
      invariant Looping(start, k, blocks, maxIterations, iterations, points[..], oldCentroids, centroids, last, done)
      decreases maxIterations + 1 - iterations
    {
      iterations, oldCentroids, centroids, last, done :=
        Step(points, k, maxIterations, start, blocks, iterations, oldCentroids, centroids, last);
    }
  }

  /** One pass of the loop body (kmeans.cpp:123-131), taken because the
      test failed: copy the list into the snapshot, count the round,
      allocate, recompute and test again. The invariant holds at the next
      count. */
  method Step(points: array<Point>, k: int, maxIterations: nat, ghost start: RunState, ghost blocks: nat,
              iterations0: nat, oldCentroids0: seq<Point>, centroids0: seq<Point>, ghost last0: seq<Point>)
    returns (iterations: nat, oldCentroids: seq<Point>, centroids: seq<Point>, ghost last: seq<Point>, done: bool)
    requires Looping(start, k, blocks, maxIterations, iterations0, points[..], oldCentroids0, centroids0, last0, false)
    modifies points
    ensures iterations == iterations0 + 1
    ensures Looping(start, k, blocks, maxIterations, iterations, points[..], oldCentroids, centroids, last, done)
  {
    ghost var labelled := points[..];
    LoopShrinks(start, k, blocks, maxIterations, iterations0, labelled, oldCentroids0, centroids0, last0);
    oldCentroids := Snapshot(oldCentroids0, centroids0);
    iterations := iterations0 + 1;
    AllocateToCluster(points, centroids0);
    last := centroids0;
    centroids := GetNewCentroids(points, k);
    done := Stop(iterations, maxIterations, oldCentroids, centroids);
    LoopStep(start, k, blocks, maxIterations, iterations0, labelled, oldCentroids0, centroids0, last0,
             oldCentroids, points[..], centroids, done);
  }
}
