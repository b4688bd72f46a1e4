/** The run of `kmeans` (kmeans.cpp:91-137) on values: initialise once,
    then, until `stop` says so, snapshot the centroids, relabel the points
    and recompute the centroids. The states of the run, the stop test in
    its terms, the loop invariant the imperative driver keeps, and what a
    run that stops has reached. MAX_ITERATIONS, a global the caller sets
    to the number of points (kmeans.cpp:64), is the parameter
    maxIterations. */
module Run {
  import opened IntArith
  import opened Points
  import opened Initializer
  import opened Assigner
  import opened Updater
  import opened Convergence

  /** The placeholder `oldCentroids` built before the first test: n points
      at (0, 0) with cluster 0 (kmeans.cpp:103-107). */
  function Placeholders(n: nat): (r: seq<Point>)
    ensures |r| == n
  {
    seq(n, _ => Point(0, 0, 0))
  }

  /** If every id of a is an id of b, and both lists have strictly
      increasing ids, a is no longer than b. */
  lemma {:induction false} SubsetIdsBound(a: seq<Point>, b: seq<Point>)
    requires IncreasingIds(a) && IncreasingIds(b)
    requires forall i :: 0 <= i < |a| ==> HasId(b, a[i].cluster)
    ensures |a| <= |b|
  {
    if a != [] {
      var last := a[|a| - 1].cluster;
      var j :| 0 <= j < |b| && b[j].cluster == last;
      var init := a[..|a| - 1];
      forall i | 0 <= i < |init|
        ensures HasId(b[..j], init[i].cluster)
      {
        var c := init[i].cluster;
        assert c == a[i].cluster < last;
        var j' :| 0 <= j' < |b| && b[j'].cluster == c;
        assert j' < j;
        assert b[..j][j'] == b[j'];
      }
      SubsetIdsBound(init, b[..j]);
    }
  }

  /** After an assignment against non-empty centroids cs with increasing
      ids, the recomputed list is no longer than cs: every label in use is
      an id of cs. */
  lemma AllocatedCentroidsBound(s: seq<Point>, cs: seq<Point>, k: int)
    requires |cs| > 0 && IncreasingIds(cs)
    ensures |NewCentroids(AllocateAll(s, cs), k)| <= |cs|
  {
    var t := AllocateAll(s, cs);
    var r := NewCentroids(t, k);
    NewCentroidsSound(t, k);
    forall i | 0 <= i < |r|
      ensures HasId(cs, r[i].cluster)
    {
      var c := r[i].cluster;
      ClusterCountPositive(t, c);
      var j :| 0 <= j < |t| && t[j].cluster == c;
      assert t[j] == Assign(s[j], cs);
    }
    SubsetIdsBound(r, cs);
  }

  /** With at least one point labelled within 1..k, the recomputed list is
      not empty. */
  lemma NewCentroidsNonEmpty(s: seq<Point>, k: int)
    requires |s| > 0 && LabelsWithin(s, 1, k)
    ensures |NewCentroids(s, k)| > 0
  {
    ClusterCountPositive(s, s[0].cluster);
    NewCentroidsComplete(s, k);
    assert HasId(NewCentroids(s, k), s[0].cluster);
  }

  /** What holds of the labels and the centroid list at every test of the
      loop condition: ids strictly increasing and within 1..blocks, every
      label within 1..blocks, and a non-empty list whenever there are
      points. */
  ghost predicate Coherent(s: seq<Point>, centroids: seq<Point>, blocks: nat) {
    IncreasingIds(centroids) && LabelsWithin(centroids, 1, blocks) &&
    LabelsWithin(s, 1, blocks) && (|s| > 0 ==> |centroids| > 0)
  }

  /** The initial partition is coherent. */
  lemma InitialCoherent(s: seq<Point>, k: int)
    requires k >= 1 && !HasSingletonBlock(|s|, BlockSize(|s|, k))
    ensures InitCentroids(s, k).Centroids?
    ensures Coherent(InitLabels(s, BlockSize(|s|, k)), InitCentroids(s, k).centroids,
                     NumBlocks(|s|, BlockSize(|s|, k)))
  {
    var p := BlockSize(|s|, k);
    var cs := InitCentroids(s, k).centroids;
    InitLabelsShape(s, p);
    assert |cs| == NumBlocks(|s|, p);
  }

  /** The state after at least one round: allocating the labels s against
      the centroids `last` leaves them as they are, and `final` is the list
      recomputed from s, no longer than `last`. */
  ghost predicate Settled(s: seq<Point>, k: int, last: seq<Point>, final: seq<Point>) {
    AllocateAll(s, last) == s && final == NewCentroids(s, k) && |final| <= |last|
  }

  /** Every centroid of cs sits at the origin. */
  predicate AtOrigin(cs: seq<Point>) {
    forall i :: 0 <= i < |cs| ==> cs[i].x == 0 && cs[i].y == 0
  }

  /** One round (allocate, then recompute) keeps the state coherent, keeps
      every position, reaches a labelling that allocation no longer changes
      and never lengthens the centroid list. */
  lemma {:induction false} RoundKeeps(s: seq<Point>, cs: seq<Point>, k: int, blocks: nat)
    requires blocks <= k && Coherent(s, cs, blocks)
    ensures Coherent(AllocateAll(s, cs), NewCentroids(AllocateAll(s, cs), k), blocks)
    ensures AllocateAll(AllocateAll(s, cs), cs) == AllocateAll(s, cs)
    ensures |NewCentroids(AllocateAll(s, cs), k)| <= |cs|
    ensures SamePlaces(AllocateAll(s, cs), s)
  {
    var t := AllocateAll(s, cs);
    AllocateIdempotent(s, cs);
    AllocateLabelsWithin(s, cs, 1, blocks);
    NewCentroidsSound(t, k);
    NewCentroidsWithin(t, k, blocks);
    if |s| > 0 {
      AllocatedCentroidsBound(s, cs, k);
      NewCentroidsNonEmpty(t, k);
    } else {
      NewCentroidsWithin(t, k, 0);
    }
  }

  /** The labels and the centroid list kmeans holds between rounds. */
  datatype RunState = RunState(labels: seq<Point>, centroids: seq<Point>)

  /** One round of the loop body on values: relabel the points against the
      current list, then recompute the list from the new labels. */
  function Round(st: RunState, k: int): RunState {
    var t := AllocateAll(st.labels, st.centroids);
    RunState(t, NewCentroids(t, k))
  }

  /** The state the loop starts from: the initializer's labels and list. */
  function Start(s0: seq<Point>, k: int): (r: RunState)
    requires k >= 1 && !HasSingletonBlock(|s0|, BlockSize(|s0|, k))
    ensures |r.centroids| == NumBlocks(|s0|, BlockSize(|s0|, k))
  {
    RunState(InitLabels(s0, BlockSize(|s0|, k)), InitCentroids(s0, k).centroids)
  }

  /** The state after i rounds started from init. */
  function Iterate(init: RunState, k: int, i: nat): RunState {
    if i == 0 then init else Round(Iterate(init, k, i - 1), k)
  }

  /** A state a run can start from: coherent, with ids within 1..blocks
      and blocks <= k. */
  ghost predicate Sound(init: RunState, k: int, blocks: nat) {
    blocks <= k && Coherent(init.labels, init.centroids, blocks)
  }

  /** The initializer's state is one. */
  lemma StartSound(s0: seq<Point>, k: int)
    requires k >= 1 && !HasSingletonBlock(|s0|, BlockSize(|s0|, k))
    ensures Sound(Start(s0, k), k, NumBlocks(|s0|, BlockSize(|s0|, k)))
    ensures SamePlaces(Start(s0, k).labels, s0)
  {
    InitialCoherent(s0, k);
    InitLabelsShape(s0, BlockSize(|s0|, k));
    NumBlocksAtMostK(|s0|, k);
  }

  /** One round keeps a coherent state coherent and at the same positions,
      settles the labels against the list it started from and does not
      lengthen the list. */
  lemma RoundInvariant(s0: seq<Point>, st: RunState, k: int, blocks: nat)
    requires blocks <= k && Coherent(st.labels, st.centroids, blocks) && SamePlaces(st.labels, s0)
    ensures Coherent(Round(st, k).labels, Round(st, k).centroids, blocks)
    ensures SamePlaces(Round(st, k).labels, s0)
    ensures Settled(Round(st, k).labels, k, st.centroids, Round(st, k).centroids)
  {
    RoundKeeps(st.labels, st.centroids, k, blocks);
  }

  /** Every state of a run from a sound start is coherent and keeps the
      start's positions, and its list has at most `blocks` entries; after a
      round, the labels no longer change when allocated against the list
      they were computed from, and the list has not grown. */
  lemma {:induction false} IterateInvariant(init: RunState, k: int, blocks: nat, i: nat)
    requires Sound(init, k, blocks)
    ensures Coherent(Iterate(init, k, i).labels, Iterate(init, k, i).centroids, blocks)
    ensures SamePlaces(Iterate(init, k, i).labels, init.labels)
    ensures |Iterate(init, k, i).centroids| <= blocks
    ensures i > 0 ==> Settled(Iterate(init, k, i).labels, k, Iterate(init, k, i - 1).centroids, Iterate(init, k, i).centroids)
  {
    if i > 0 {
      IterateInvariant(init, k, blocks, i - 1);
      RoundInvariant(init.labels, Iterate(init, k, i - 1), k, blocks);
    }
    IncreasingIdsBound(Iterate(init, k, i).centroids, blocks);
  }

  /** The list of every state of a run from a sound start has at most
      `blocks` entries. */
  lemma IterateBound(init: RunState, k: int, blocks: nat, i: nat)
    requires Sound(init, k, blocks)
    ensures |Iterate(init, k, i).centroids| <= blocks
  {
    IterateInvariant(init, k, blocks, i);
  }

  /** The state after i + 1 rounds, from the labels and list after i. */
  lemma RoundOfIterate(init: RunState, k: int, i: nat, s: seq<Point>, centroids: seq<Point>)
    requires Iterate(init, k, i) == RunState(s, centroids)
    ensures Iterate(init, k, i + 1) == RunState(AllocateAll(s, centroids), NewCentroids(AllocateAll(s, centroids), k))
  {
  }

  /** The test kmeans makes before round i + 1, in terms of the run: the
      cap is exceeded, or (before any round) every initial centroid is at
      the origin where the placeholders are, or the list of round i sits
      at the positions of the list of round i - 1. */
  predicate StopsAt(init: RunState, k: int, maxIterations: nat, i: nat) {
    i > maxIterations ||
    (i == 0 && AtOrigin(init.centroids)) ||
    (i > 0 && |Iterate(init, k, i).centroids| <= |Iterate(init, k, i - 1).centroids| &&
     SamePositions(Iterate(init, k, i - 1).centroids, Iterate(init, k, i).centroids))
  }

  /** The test before any round compares the initial centroids with the
      placeholders at (0, 0), so it can stop a run that is not at a fixed
      point: five points at the origin with k = 2 get labels 1, 1, 1, 2, 2
      and two centroids at the origin, and the loop never runs, though one
      round would move the last two points to cluster 1 (a tie keeps the
      first centroid). */
  lemma StopsBeforeAnyRound()
    ensures var s0 := [Point(0, 0, 0), Point(0, 0, 0), Point(0, 0, 0), Point(0, 0, 0), Point(0, 0, 0)];
      !HasSingletonBlock(|s0|, BlockSize(|s0|, 2)) &&
      StopsAt(Start(s0, 2), 2, 5, 0) &&
      Iterate(Start(s0, 2), 2, 1).labels != Iterate(Start(s0, 2), 2, 0).labels
  {
    var s0 := [Point(0, 0, 0), Point(0, 0, 0), Point(0, 0, 0), Point(0, 0, 0), Point(0, 0, 0)];
    FiveOriginPoints();
    var t := [Point(0, 0, 1), Point(0, 0, 1), Point(0, 0, 1), Point(0, 0, 2), Point(0, 0, 2)];
    var cs := [Point(0, 0, 1), Point(0, 0, 2)];
    var start := Start(s0, 2);
    assert start == RunState(t, cs);
    assert AtOrigin(cs);
    assert Iterate(start, 2, 1).labels == AllocateAll(t, cs);
    TieKeepsFirst(t[3], cs);
    assert AllocateAll(t, cs)[3] == Assign(t[3], cs);
  }

  /** Two centroids at the same place are at the same distance from any
      point, and the strict comparison then keeps the first. */
  lemma TieKeepsFirst(p: Point, cs: seq<Point>)
    requires |cs| == 2 && SamePosition(cs[0], cs[1])
    ensures Nearest(p, cs) == 0
  {
    assert Dist(p, cs[0]) == Dist(p, cs[1]);
  }

  /** A run that stops on the position test after some rounds has reached
      a fixed point: one more round changes neither the labels nor the
      list, and that list is a prefix of the previous one. */
  lemma StopsAtFixedPoint(init: RunState, k: int, blocks: nat, maxIterations: nat, i: nat)
    requires Sound(init, k, blocks)
    requires 0 < i <= maxIterations && StopsAt(init, k, maxIterations, i)
    ensures Iterate(init, k, i + 1) == Iterate(init, k, i)
    ensures Iterate(init, k, i).centroids == Iterate(init, k, i - 1).centroids[..|Iterate(init, k, i).centroids|]
  {
    IterateInvariant(init, k, blocks, i - 1);
    IterateInvariant(init, k, blocks, i);
    var st, prev := Iterate(init, k, i), Iterate(init, k, i - 1);
    assert LabelsWithin(prev.centroids, 1, k);
    ConvergedIsFixedPoint(st.labels, k, prev.centroids, st.centroids);
  }

  /** The copy at the head of each round of kmeans (kmeans.cpp:123-124):
      entry x of the old list is overwritten with centroid x, for every
      index of the current list; the rest of the old list stays. */
  method Snapshot(oldCentroids: seq<Point>, centroids: seq<Point>) returns (r: seq<Point>)
    requires |centroids| <= |oldCentroids|
    ensures |r| == |oldCentroids|
    ensures r[..|centroids|] == centroids
    ensures r[|centroids|..] == oldCentroids[|centroids|..]
  {
    r := oldCentroids;
    var x := 0;
    while x < |centroids|
      invariant 0 <= x <= |centroids|
      invariant |r| == |oldCentroids|
      invariant forall i :: 0 <= i < x ==> r[i] == centroids[i]
      invariant forall i :: x <= i < |r| ==> r[i] == oldCentroids[i]
    {
      r := r[x := centroids[x]];
      x := x + 1;
    }
  }

  /** The loop invariant of kmeans, on values: init is the state the loop
      started from, s the current labels, oldCentroids the snapshot list,
      centroids the current list and last the list of the latest
      assignment. The labels and the list are the state of the run after
      `iterations` rounds, and last is the list of the round before; the
      snapshot holds placeholders before the first round and last's
      entries after it. */
  ghost predicate Progress(init: RunState, k: int, blocks: nat, maxIterations: nat, iterations: nat,
                           s: seq<Point>, oldCentroids: seq<Point>, centroids: seq<Point>, last: seq<Point>)
  {
    Sound(init, k, blocks) &&
    iterations <= maxIterations + 1 &&
    RunState(s, centroids) == Iterate(init, k, iterations) &&
    |oldCentroids| == blocks && |centroids| <= |oldCentroids| &&
    (iterations == 0 ==> oldCentroids == Placeholders(|centroids|)) &&
    (iterations > 0 ==>
      last == Iterate(init, k, iterations - 1).centroids && |last| <= |oldCentroids| &&
      oldCentroids[..|last|] == last)
  }

  /** The state kmeans enters its loop with satisfies the invariant. */
  lemma ProgressStart(init: RunState, k: int, blocks: nat, maxIterations: nat, oldCentroids: seq<Point>)
    requires Sound(init, k, blocks) && |init.centroids| == blocks
    requires oldCentroids == Placeholders(|init.centroids|)
    ensures Progress(init, k, blocks, maxIterations, 0, init.labels, oldCentroids, init.centroids, [])
  {
  }

  /** One round of the loop body (snapshot, allocate into labels,
      recompute into next) from the state of the run after `iterations`
      rounds establishes the invariant at the next count, given the
      snapshot the copy produces. */
  lemma ProgressStep(init: RunState, k: int, blocks: nat, maxIterations: nat, iterations: nat,
                     s: seq<Point>, oldCentroids: seq<Point>, centroids: seq<Point>,
                     snapshot: seq<Point>, labels: seq<Point>, next: seq<Point>)
    requires Sound(init, k, blocks)
    requires iterations <= maxIterations
    requires RunState(s, centroids) == Iterate(init, k, iterations)
    requires |oldCentroids| == blocks && |centroids| <= |oldCentroids|
    requires |snapshot| == |oldCentroids| && snapshot[..|centroids|] == centroids
    requires labels == AllocateAll(s, centroids) && next == NewCentroids(labels, k)
    ensures Progress(init, k, blocks, maxIterations, iterations + 1, labels, snapshot, next, centroids)
  {
    RoundOfIterate(init, k, iterations, s, centroids);
    IterateBound(init, k, blocks, iterations + 1);
    ProgressIntro(init, k, blocks, maxIterations, iterations, labels, snapshot, next, centroids);
  }

  /** Progress at the next count, from its parts. */
  lemma ProgressIntro(init: RunState, k: int, blocks: nat, maxIterations: nat, iterations: nat,
                     labels: seq<Point>, snapshot: seq<Point>, next: seq<Point>, centroids: seq<Point>)
    requires Sound(init, k, blocks)
    requires iterations <= maxIterations
    requires RunState(labels, next) == Iterate(init, k, iterations + 1)
    requires |snapshot| == blocks && |next| <= |snapshot|
    requires centroids == Iterate(init, k, iterations).centroids && |centroids| <= |snapshot| && snapshot[..|centroids|] == centroids
    ensures Progress(init, k, blocks, maxIterations, iterations + 1, labels, snapshot, next, centroids)
  {
  }

  /** The parts of Progress a round builds on. */
  lemma ProgressElim(init: RunState, k: int, blocks: nat, maxIterations: nat, iterations: nat,
                     s: seq<Point>, oldCentroids: seq<Point>, centroids: seq<Point>, last: seq<Point>)
    requires Progress(init, k, blocks, maxIterations, iterations, s, oldCentroids, centroids, last)
    ensures Sound(init, k, blocks)
    ensures RunState(s, centroids) == Iterate(init, k, iterations)
    ensures |oldCentroids| == blocks && |centroids| <= |oldCentroids|
  {
  }

  /** At every test of the loop condition, stop's answer is StopsAt of
      the run: the snapshot list agrees with the list of the previous round
      wherever the current list reaches. */
  lemma StopTest(init: RunState, k: int, blocks: nat, maxIterations: nat, iterations: nat,
                 s: seq<Point>, oldCentroids: seq<Point>, centroids: seq<Point>, last: seq<Point>)
    requires Progress(init, k, blocks, maxIterations, iterations, s, oldCentroids, centroids, last)
    ensures (iterations > maxIterations || SamePositions(oldCentroids, centroids)) <==>
            StopsAt(init, k, maxIterations, iterations)
  {
    if iterations == 0 {
      assert forall i :: 0 <= i < |centroids| ==> oldCentroids[i] == Point(0, 0, 0);
    } else {
      IterateInvariant(init, k, blocks, iterations);
      SamePositionsPrefix(oldCentroids, last, centroids);
    }
  }

  /** The invariant of kmeans's loop: Progress, no earlier count of
      rounds met the stop test, and done is the test at the current count. */
  ghost predicate Looping(init: RunState, k: int, blocks: nat, maxIterations: nat, iterations: nat,
                          s: seq<Point>, oldCentroids: seq<Point>, centroids: seq<Point>, last: seq<Point>,
                          done: bool)
  {
    Progress(init, k, blocks, maxIterations, iterations, s, oldCentroids, centroids, last) &&
    (forall i :: 0 <= i < iterations ==> !StopsAt(init, k, maxIterations, i)) &&
    (done <==> StopsAt(init, k, maxIterations, iterations)) &&
    (!done ==> iterations <= maxIterations)
  }

  /** A call of stop on a state satisfying Progress establishes Looping. */
  lemma LoopTest(init: RunState, k: int, blocks: nat, maxIterations: nat, iterations: nat,
                 s: seq<Point>, oldCentroids: seq<Point>, centroids: seq<Point>, last: seq<Point>,
                 done: bool)
    requires Progress(init, k, blocks, maxIterations, iterations, s, oldCentroids, centroids, last)
    requires forall i :: 0 <= i < iterations ==> !StopsAt(init, k, maxIterations, i)
    requires done <==> iterations > maxIterations || SamePositions(oldCentroids, centroids)
    ensures Looping(init, k, blocks, maxIterations, iterations, s, oldCentroids, centroids, last, done)
  {
    StopTest(init, k, blocks, maxIterations, iterations, s, oldCentroids, centroids, last);
  }

  /** A round taken because the test failed does not lengthen the list
      beyond the snapshot, so the two can be compared. */
  lemma LoopShrinks(init: RunState, k: int, blocks: nat, maxIterations: nat, iterations: nat,
                    s: seq<Point>, oldCentroids: seq<Point>, centroids: seq<Point>, last: seq<Point>)
    requires Looping(init, k, blocks, maxIterations, iterations, s, oldCentroids, centroids, last, false)
    ensures |NewCentroids(AllocateAll(s, centroids), k)| <= |oldCentroids|
  {
    RoundOfIterate(init, k, iterations, s, centroids);
    IterateBound(init, k, blocks, iterations + 1);
  }

  /** A round taken because the test failed (snapshot, allocate into
      labels, recompute into next, test again into done) keeps the loop
      invariant at the next count. */
  lemma LoopStep(init: RunState, k: int, blocks: nat, maxIterations: nat, iterations: nat,
                 s: seq<Point>, oldCentroids: seq<Point>, centroids: seq<Point>, last: seq<Point>,
                 snapshot: seq<Point>, labels: seq<Point>, next: seq<Point>, done: bool)
    requires Looping(init, k, blocks, maxIterations, iterations, s, oldCentroids, centroids, last, false)
    requires |snapshot| == |oldCentroids| && snapshot[..|centroids|] == centroids
    requires labels == AllocateAll(s, centroids) && next == NewCentroids(labels, k)
    requires |next| <= |snapshot|
    requires done <==> iterations + 1 > maxIterations || SamePositions(snapshot, next)
    ensures Looping(init, k, blocks, maxIterations, iterations + 1, labels, snapshot, next, centroids, done)
  {
    ProgressElim(init, k, blocks, maxIterations, iterations, s, oldCentroids, centroids, last);
    ProgressStep(init, k, blocks, maxIterations, iterations, s, oldCentroids, centroids, snapshot, labels, next);
    NotStoppedYet(init, k, maxIterations, iterations);
    LoopTest(init, k, blocks, maxIterations, iterations + 1, labels, snapshot, next, centroids, done);
  }

  /** When the loop ends, the loop counter is the first count at which
      the test holds, the labels and the list are the run's state at that
      count, and that state keeps the positions of s0, has labels within
      1..blocks and, after a round, is settled against the previous list
      (which it matches in position when the cap was not reached). */
  lemma LoopExit(init: RunState, k: int, blocks: nat, maxIterations: nat, iterations: nat,
                 s: seq<Point>, oldCentroids: seq<Point>, centroids: seq<Point>, last: seq<Point>,
                 s0: seq<Point>)
    requires Looping(init, k, blocks, maxIterations, iterations, s, oldCentroids, centroids, last, true)
    requires SamePlaces(init.labels, s0)
    ensures iterations <= maxIterations + 1
    ensures StopsAt(init, k, maxIterations, iterations)
    ensures forall i :: 0 <= i < iterations ==> !StopsAt(init, k, maxIterations, i)
    ensures RunState(s, centroids) == Iterate(init, k, iterations)
    ensures iterations > 0 ==> last == Iterate(init, k, iterations - 1).centroids
    ensures SamePlaces(s, s0)
    ensures LabelsWithin(s, 1, blocks)
    ensures |centroids| <= blocks
    ensures iterations > 0 ==> Settled(s, k, last, centroids)
    ensures 0 < iterations <= maxIterations ==> SamePositions(last, centroids)
  {
    IterateInvariant(init, k, blocks, iterations);
    assert forall i :: 0 <= i < |s| ==> SamePosition(s[i], init.labels[i]) && SamePosition(init.labels[i], s0[i]);
  }

  /** What a run of kmeans from the points s0 has reached when its loop
      ends after `rounds` rounds with labels s, list `final` and previous
      list `last`: `rounds` is the first count at which StopsAt holds (at
      most maxIterations + 1), s and `final` are the run's state after
      that many rounds and `last` the list of the round before; s keeps
      the positions of s0 and labels every point within 1..blocks, the list
      has at most `blocks` entries, and after a round the state is settled
      against `last`, at whose positions it sits when the cap was not
      reached. */
  ghost predicate Outcome(s0: seq<Point>, k: int, maxIterations: nat, s: seq<Point>, rounds: nat,
                          last: seq<Point>, final: seq<Point>)
    requires k >= 1 && !HasSingletonBlock(|s0|, BlockSize(|s0|, k))
  {
    var start, blocks := Start(s0, k), NumBlocks(|s0|, BlockSize(|s0|, k));
    rounds <= maxIterations + 1 &&
    StopsAt(start, k, maxIterations, rounds) &&
    (forall i :: 0 <= i < rounds ==> !StopsAt(start, k, maxIterations, i)) &&
    RunState(s, final) == Iterate(start, k, rounds) &&
    (rounds > 0 ==> last == Iterate(start, k, rounds - 1).centroids) &&
    SamePlaces(s, s0) && LabelsWithin(s, 1, blocks) && |final| <= blocks &&
    (rounds > 0 ==> Settled(s, k, last, final)) &&
    (0 < rounds <= maxIterations ==> SamePositions(last, final))
  }

  /** The loop of a run started by the initializer ends with Outcome. */
  lemma RunOutcome(s0: seq<Point>, k: int, maxIterations: nat, iterations: nat,
                   s: seq<Point>, oldCentroids: seq<Point>, centroids: seq<Point>, last: seq<Point>)
    requires k >= 1 && !HasSingletonBlock(|s0|, BlockSize(|s0|, k))
    requires Looping(Start(s0, k), k, NumBlocks(|s0|, BlockSize(|s0|, k)), maxIterations, iterations,
                     s, oldCentroids, centroids, last, true)
    ensures Outcome(s0, k, maxIterations, s, iterations, last, centroids)
  {
    StartSound(s0, k);
    LoopExit(Start(s0, k), k, NumBlocks(|s0|, BlockSize(|s0|, k)), maxIterations, iterations,
             s, oldCentroids, centroids, last, s0);
  }

  /** No count up to and including `iterations` met the test, when none
      before it did and it did not. */
  lemma NotStoppedYet(init: RunState, k: int, maxIterations: nat, iterations: nat)
    requires forall i :: 0 <= i < iterations ==> !StopsAt(init, k, maxIterations, i)
    requires !StopsAt(init, k, maxIterations, iterations)
    ensures forall i :: 0 <= i < iterations + 1 ==> !StopsAt(init, k, maxIterations, i)
  {
  }

  /** A non-empty cluster whose every member is strictly nearer the
      centroid d than the centroid b cannot have its mean at b: the members'
      gap towards d adds up to at least n times the gap unit, while a mean
      at b bounds it by n - 1 times that unit. */
  lemma NoCrossedMean(s: seq<Point>, c: int, b: Point, d: Point)
    requires ClusterCount(s, c) > 0
    requires forall i :: 0 <= i < |s| && s[i].cluster == c ==> Dist(s[i], d) < Dist(s[i], b)
    ensures !SamePosition(MeanCentroid(s, c), b)
  {
    var dx, dy := d.x - b.x, d.y - b.y;
    var g := if Abs(dx) + Abs(dy) >= 1 then Abs(dx) + Abs(dy) else 1;
    forall i | 0 <= i < |s| && s[i].cluster == c
      ensures (s[i].x - b.x) * dx + (s[i].y - b.y) * dy >= g
    {
      CloserGap(s[i], b, d);
    }
    ClusterGapSum(s, c, b.x, b.y, dx, dy, g);
    var n, m := ClusterCount(s, c), MeanCentroid(s, c);
    MeanNearExact(s, c);
    OffsetBelowUnit(n, ClusterSumX(s, c) - n * m.x, ClusterSumY(s, c) - n * m.y, dx, dy);
  }

  /** The label a settled point carries is the id of its nearest centroid. */
  lemma SettledLabel(s: seq<Point>, last: seq<Point>, t: nat)
    requires AllocateAll(s, last) == s && |last| > 0 && t < |s|
    ensures Nearest(s[t], last) < |last| && last[Nearest(s[t], last)].cluster == s[t].cluster
  {
    assert s[t] == AllocateAll(s, last)[t];
  }

  /** Every cluster in use after a settled assignment is an id of last. */
  lemma SettledHasId(s: seq<Point>, last: seq<Point>, c: int)
    requires AllocateAll(s, last) == s && |last| > 0 && ClusterCount(s, c) > 0
    ensures HasId(last, c)
  {
    ClusterCountPositive(s, c);
    var t :| 0 <= t < |s| && s[t].cluster == c;
    SettledLabel(s, last, t);
  }

  /** The id of entry i of the recomputed list is found in last at an
      index j no smaller than i. */
  lemma SettledIdIndex(s: seq<Point>, k: int, last: seq<Point>, final: seq<Point>, i: nat, j: nat)
    requires Settled(s, k, last, final) && IncreasingIds(last)
    requires i < |final| && j < |last| && last[j].cluster == final[i].cluster
    ensures i <= j
  {
    NewCentroidsSound(s, k);
    var front, upto := final[..i + 1], last[..j + 1];
    forall i' | 0 <= i' < |front|
      ensures HasId(upto, front[i'].cluster)
    {
      SettledHasId(s, last, final[i'].cluster);
      var j' :| 0 <= j' < |last| && last[j'].cluster == final[i'].cluster;
      assert upto[j'] == last[j'];
    }
    SubsetIdsBound(front, upto);
  }

  /** With settled labels and unique ids, every member of the cluster of
      last[j] is strictly nearer last[j] than any earlier entry. */
  lemma SettledMembersNearer(s: seq<Point>, last: seq<Point>, i: nat, j: nat)
    requires AllocateAll(s, last) == s && IncreasingIds(last) && i < j < |last|
    ensures forall u :: 0 <= u < |s| && s[u].cluster == last[j].cluster ==>
      Dist(s[u], last[j]) < Dist(s[u], last[i])
  {
    forall u | 0 <= u < |s| && s[u].cluster == last[j].cluster
      ensures Dist(s[u], last[j]) < Dist(s[u], last[i])
    {
      SettledLabel(s, last, u);
      assert Nearest(s[u], last) == j;
      NearestInMinimal(s[u], last, |last|);
    }
  }

  /** When the points, assigned against last, produce a list at the same
      positions, entry i of the recomputed list is entry i of last. Its id
      is the id of some last[j] with j >= i; were j > i, every member of
      that cluster would be strictly nearer last[j] than last[i], and the
      mean could not sit at last[i]. */
  lemma SettledEntry(s: seq<Point>, k: int, last: seq<Point>, final: seq<Point>, i: nat)
    requires Settled(s, k, last, final) && IncreasingIds(last) && SamePositions(last, final)
    requires i < |final|
    ensures final[i] == last[i]
  {
    NewCentroidsSound(s, k);
    var c := final[i].cluster;
    ClusterCountPositive(s, c);
    var t :| 0 <= t < |s| && s[t].cluster == c;
    SettledLabel(s, last, t);
    var j := Nearest(s[t], last);
    SettledIdIndex(s, k, last, final, i, j);
    if j > i {
      SettledMembersNearer(s, last, i, j);
      NoCrossedMean(s, c, last[i], last[j]);
      assert false;
    }
  }

  /** The fixed point kmeans stops at: when the list recomputed from points
      assigned against last sits at the positions of last's first entries,
      it is that prefix of last, and a further round (assign, then
      recompute) reproduces both the labels and the centroids. */
  lemma ConvergedIsFixedPoint(s: seq<Point>, k: int, last: seq<Point>, final: seq<Point>)
    requires Settled(s, k, last, final) && IncreasingIds(last) && LabelsWithin(last, 1, k)
    requires SamePositions(last, final)
    ensures final == last[..|final|]
    ensures AllocateAll(s, final) == s
    ensures NewCentroids(AllocateAll(s, final), k) == final
  {
    forall i | 0 <= i < |final|
      ensures final[i] == last[i]
    {
      SettledEntry(s, k, last, final, i);
    }
    assert final == last[..|final|];
    forall t | 0 <= t < |s|
      ensures AllocateAll(s, final)[t] == s[t]
    {
      SettledPointStays(s, k, last, final, t);
    }
  }

  /** A settled point keeps its label against a prefix of last that still
      holds the centroid of its cluster: that centroid is the first nearest
      in the prefix as it was in the whole list. */
  lemma SettledPointStays(s: seq<Point>, k: int, last: seq<Point>, final: seq<Point>, t: nat)
    requires Settled(s, k, last, final) && IncreasingIds(last) && LabelsWithin(last, 1, k)
    requires final == last[..|final|] && t < |s|
    ensures Assign(s[t], final) == s[t]
  {
    assert s[t] == AllocateAll(s, last)[t];
    if |last| > 0 {
      SettledLabel(s, last, t);
      var j := Nearest(s[t], last);
      ClusterCountPositive(s, s[t].cluster);
      NewCentroidsComplete(s, k);
      var i :| 0 <= i < |final| && final[i].cluster == s[t].cluster;
      assert final[i] == last[i];
      assert i == j;
      NearestOfPrefix(s[t], last, |final|);
    }
  }
}
