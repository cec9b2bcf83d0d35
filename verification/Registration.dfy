/**
  Iterative closest-point registration as in src/backends/pcl/pcl_registration_backend.cpp, on the CPU
  backend. All floating-point work is uninterpreted: the results below hold for whatever the
  operations compute. A prepared object keeps its executor and its buffers from one scan to the next.
 */
module Registration {
  import opened Basics
  import opened Surfaces
  import opened Fields
  import opened Nearest
  import opened TreeSearch
  import opened Executor
  import opened BlockJobs
  import opened CpuExecutorObject

  /** The valid points of a surface, with their normals if it has any. */
  datatype Cloud<+Pt> = Cloud(points: seq<Pt>, normals: seq<Pt>)

  /** A scan point, where the pose puts it, and its nearest reference point. */
  datatype Match<+Pt, +Pose, +Cov> = Match(scan: Cloud<Pt>, covariances: seq<Cov>, pose: Pose, source: nat, point: Pt, target: nat)

  /** The prepared reference and the floating-point operations on it. */
  datatype Kernel<!Pt, !Pose, !Cov, !Acc, !Twist> = Kernel(
    blank: Pt, unit: Pt -> Pt,
    transform: (Pose, Pt) -> Pt,
    narrow: Pt -> Option<Pt>,                 // to search precision; None when not finite
    tree: Tree<Pt>, root: real -> real, limit: real,
    gicp: bool, neighbors: nat,
    treeOf: Cloud<Pt> -> Tree<nat>,           // over a cloud's own points, queried by their indices
    covarianceOf: (Cloud<Pt>, seq<nat>) -> Result<Cov, Fault>,
    insufficient: Fault,
    blankCovariance: Cov,
    zero: Acc, merge: (Acc, Acc) -> Acc, pairs: Acc -> nat,
    add: (Acc, Match<Pt, Pose, Cov>) -> Acc,       // accepted pairs only
    addFinal: (Acc, Match<Pt, Pose, Cov>) -> Acc,
    rankDeficient: Acc -> bool, mean: Acc -> real, flat: (real, real) -> bool,
    solve: Acc -> Option<Twist>, compose: (Twist, Pose) -> Pose, small: Twist -> bool,
    finish: Pose -> Pose, rigid: Pose -> bool,
    maxIterations: nat)

  /** The library may list the points of a ball in any order, but always lists the same ones. */
  ghost predicate StableTies<Pt(!new), Pose, Cov, Acc, Twist>(k: Kernel<Pt, Pose, Cov, Acc, Twist>) {
    Stable(k.tree) && forall cloud: Cloud<Pt> {:trigger k.treeOf(cloud)} :: Stable(k.treeOf(cloud))
  }

  datatype AlignError =
    | TooFewNeighbors | Covariance(fault: Fault) | EmptyScan | OutOfRange | NotRigid

  datatype Convergence = Converged | NotConverged | DegenerateInput

  /** What the metrics are computed from. */
  datatype Solution<+Pose, +Acc> = Solution(pose: Pose, convergence: Convergence, iterations: nat, totals: Acc, points: nat)

  // ----- the specification: no threads, no buffers, no call numbers -----

  function Extract<Pt>(s: Surface<Pt>, unit: Pt -> Pt): Cloud<Pt>
    requires WellFormed(s)
  {
    var indices := ValidIndices(s, Logical(s));
    Cloud(seq(|indices|, i requires 0 <= i < |indices| => s.points[indices[i]]),
          if s.normals == [] then [] else seq(|indices|, i requires 0 <= i < |indices| => unit(s.normals[indices[i]])))
  }

  function Moved<Pt, Pose, Cov, Acc, Twist>(k: Kernel<Pt, Pose, Cov, Acc, Twist>, points: seq<Pt>, pose: Pose): (moved: seq<Pt>)
    ensures |moved| == |points|
  {
    seq(|points|, i requires 0 <= i < |points| => k.transform(pose, points[i]))
  }

  /** The nearest reference point of one query. */
  function NeighborOf<Pt, Pose, Cov, Acc, Twist>(k: Kernel<Pt, Pose, Cov, Acc, Twist>, call: nat, q: Pt): int {
    NearestOf(k.tree, k.root, k.limit, call, q)
  }

  predicate Searchable<Pt, Pose, Cov, Acc, Twist>(k: Kernel<Pt, Pose, Cov, Acc, Twist>, moved: seq<Pt>) {
    forall i :: 0 <= i < |moved| ==> k.narrow(moved[i]).Some?
  }

  function Neighbors<Pt, Pose, Cov, Acc, Twist>(k: Kernel<Pt, Pose, Cov, Acc, Twist>, moved: seq<Pt>): (r: seq<int>)
    requires Searchable(k, moved)
    ensures |r| == |moved|
  {
    seq(|moved|, i requires 0 <= i < |moved| => NeighborOf(k, 0, k.narrow(moved[i]).value))
  }

  /** One point's turn in a block's accumulation. */
  function Adder<Pt, Pose, Cov, Acc>(add: (Acc, Match<Pt, Pose, Cov>) -> Acc, scan: Cloud<Pt>, covariances: seq<Cov>, pose: Pose,
                                     moved: seq<Pt>, neighbors: seq<int>): (Acc, nat) -> Acc {
    (total: Acc, i: nat) =>
      if i >= |moved| || i >= |neighbors| || neighbors[i] < 0 then total
      else add(total, Match(scan, covariances, pose, i, moved[i], neighbors[i]))
  }

  /** The totals over all pairs at a pose: block folds merged in block order. */
  function Totals<Pt, Pose, Cov, Acc, Twist>(k: Kernel<Pt, Pose, Cov, Acc, Twist>, add: (Acc, Match<Pt, Pose, Cov>) -> Acc,
                                             scan: Cloud<Pt>, covariances: seq<Cov>, pose: Pose): Result<Acc, AlignError> {
    var moved := Moved(k, scan.points, pose);
    if !Searchable(k, moved) then Failure(OutOfRange)
    else Success(FixedBlockTotal(|moved|, Adder(add, scan, covariances, pose, moved, Neighbors(k, moved)), k.merge, k.zero))
  }

  datatype Phase = Going | Degenerate | Settled

  datatype Icp<+Pose> = Icp(pose: Pose, completed: nat, phase: Phase, previous: real)

  /** One iteration, given the totals at its pose. */
  function Iterate<Pt, Pose, Cov, Acc, Twist>(k: Kernel<Pt, Pose, Cov, Acc, Twist>, iteration: nat, s: Icp<Pose>, totals: Acc): Icp<Pose> {
    if k.pairs(totals) < 6 || k.rankDeficient(totals) then s.(phase := Degenerate)
    else
      var mean := k.mean(totals);
      if iteration > 0 && k.flat(s.previous, mean) then s.(phase := Settled)
      else match k.solve(totals)
        case None => s.(phase := Degenerate, previous := mean)
        case Some(twist) =>
          Icp(k.compose(twist, s.pose), s.completed + 1, if k.small(twist) then Settled else Going, mean)
  }

  function Iteration<Pt, Pose, Cov, Acc, Twist>(k: Kernel<Pt, Pose, Cov, Acc, Twist>, scan: Cloud<Pt>, covariances: seq<Cov>,
                                                iteration: nat, s: Icp<Pose>): Result<Icp<Pose>, AlignError> {
    match Totals(k, k.add, scan, covariances, s.pose)
    case Failure(e) => Failure(e)
    case Success(totals) => Success(Iterate(k, iteration, s, totals))
  }

  function Iterations<Pt, Pose, Cov, Acc, Twist>(k: Kernel<Pt, Pose, Cov, Acc, Twist>, scan: Cloud<Pt>, covariances: seq<Cov>,
                                                 initial: Pose, n: nat): Result<Icp<Pose>, AlignError> {
    if n == 0 then Success(Icp(initial, 0, Going, 0.0))
    else
      match Iterations(k, scan, covariances, initial, n - 1)
      case Failure(e) => Failure(e)
      case Success(s) => if s.phase != Going then Success(s) else Iteration(k, scan, covariances, n - 1, s)
  }

  /** The covariance of one point's neighbourhood. */
  function CovarianceAt<Pt, Pose, Cov, Acc, Twist>(k: Kernel<Pt, Pose, Cov, Acc, Twist>, call: nat, cloud: Cloud<Pt>, i: nat): Result<Cov, Fault> {
    match NeighborhoodOf(k.treeOf(cloud), k.root, call, i, k.neighbors)
    case None => Failure(k.insufficient)
    case Some(ids) => k.covarianceOf(cloud, ids)
  }

  /** The per-point covariances, or the failure of the lowest point that has none. */
  function Covariances<Pt, Pose, Cov, Acc, Twist>(k: Kernel<Pt, Pose, Cov, Acc, Twist>, cloud: Cloud<Pt>, n: nat): Result<seq<Cov>, AlignError> {
    if n == 0 then Success([])
    else
      match Covariances(k, cloud, n - 1)
      case Failure(e) => Failure(e)
      case Success(rest) =>
        match CovarianceAt(k, 0, cloud, n - 1)
        case Failure(fault) => Failure(Covariance(fault))
        case Success(c) => Success(rest + [c])
  }

  function CloudCovariances<Pt, Pose, Cov, Acc, Twist>(k: Kernel<Pt, Pose, Cov, Acc, Twist>, cloud: Cloud<Pt>): Result<seq<Cov>, AlignError> {
    if |cloud.points| < k.neighbors then Failure(TooFewNeighbors) else Covariances(k, cloud, |cloud.points|)
  }

  /** The covariances a scan is registered with. */
  function ScanCovariances<Pt, Pose, Cov, Acc, Twist>(k: Kernel<Pt, Pose, Cov, Acc, Twist>, cloud: Cloud<Pt>): Result<seq<Cov>, AlignError> {
    if k.gicp then CloudCovariances(k, cloud) else Success([])
  }

  function ConvergenceOf(phase: Phase): Convergence {
    match phase
    case Going => NotConverged
    case Degenerate => DegenerateInput
    case Settled => Converged
  }

  /** Registration of a scan as a function of the reference, the scan and the initial pose. */
  function Aligned<Pt, Pose, Cov, Acc, Twist>(k: Kernel<Pt, Pose, Cov, Acc, Twist>, scan: Surface<Pt>, initial: Pose)
    : Result<Solution<Pose, Acc>, AlignError>
    requires WellFormed(scan)
  {
    var cloud := Extract(scan, k.unit);
    if cloud.points == [] then Failure(EmptyScan)
    else
      match ScanCovariances(k, cloud)
      case Failure(e) => Failure(e)
      case Success(c) =>
        match Iterations(k, cloud, c, initial, k.maxIterations)
        case Failure(e) => Failure(e)
        case Success(s) =>
          var pose := k.finish(s.pose);
          if !k.rigid(pose) then Failure(NotRigid)
          else match Totals(k, k.addFinal, cloud, c, pose)
            case Failure(e) => Failure(e)
            case Success(totals) =>
              Success(Solution(pose, ConvergenceOf(s.phase), s.completed, totals, |cloud.points|))
  }

  // ----- facts about the specification -----

  lemma NeighborIgnoresOrder<Pt(!new), Pose, Cov, Acc, Twist>(k: Kernel<Pt, Pose, Cov, Acc, Twist>, call: nat, q: Pt)
    requires StableTies(k)
    ensures NeighborOf(k, call, q) == NeighborOf(k, 0, q)
  {
    NearestIgnoresOrder(k.tree, k.root, k.limit, call, q);
  }

  lemma CovarianceIgnoresOrder<Pt(!new), Pose, Cov, Acc, Twist>(k: Kernel<Pt, Pose, Cov, Acc, Twist>, call: nat, cloud: Cloud<Pt>, i: nat)
    requires StableTies(k)
    ensures CovarianceAt(k, call, cloud, i) == CovarianceAt(k, 0, cloud, i)
  {
    NeighborhoodIgnoresOrder(k.treeOf(cloud), k.root, call, i, k.neighbors);
  }

  /** Under the contracts of the library, every scan point is paired as exhaustive search in ascending order would
      pair it. */
  lemma NeighborsAreExact<Pt(!new), Pose, Cov, Acc, Twist>(k: Kernel<Pt, Pose, Cov, Acc, Twist>, moved: seq<Pt>)
    requires IsRoot(k.root) && ListsBalls(k.tree) && ReportsNearest(k.tree) && Searchable(k, moved)
    ensures forall i :: 0 <= i < |moved| ==>
      Neighbors(k, moved)[i] == Oracle(Distance(k.tree, k.narrow(moved[i]).value), k.limit, k.tree.size).1
  {
    forall i | 0 <= i < |moved|
      ensures Neighbors(k, moved)[i] == Oracle(Distance(k.tree, k.narrow(moved[i]).value), k.limit, k.tree.size).1
    {
      SearchIsExact(k.tree, k.root, k.limit, 0, k.narrow(moved[i]).value);
    }
  }

  /** Under those contracts, a covariance is that of the point's k nearest points of the cloud, and support is
      insufficient exactly for a cloud of fewer points. */
  lemma CovarianceIsExact<Pt(!new), Pose, Cov, Acc, Twist>(k: Kernel<Pt, Pose, Cov, Acc, Twist>, cloud: Cloud<Pt>, i: nat)
    returns (nearest: seq<nat>)
    requires var t := k.treeOf(cloud); IsRoot(k.root) && ListsBalls(t) && ReportsNearest(t) && t.size == |cloud.points|
    ensures if |cloud.points| < k.neighbors then CovarianceAt(k, 0, cloud, i) == Failure(k.insufficient)
            else && IsChoice(Distance(k.treeOf(cloud), i), Ids(|cloud.points|), k.neighbors, nearest)
                 && CovarianceAt(k, 0, cloud, i) == k.covarianceOf(cloud, nearest)
  {
    NeighborhoodIsExact(k.treeOf(cloud), k.root, 0, i, k.neighbors);
    var n := NeighborhoodOf(k.treeOf(cloud), k.root, 0, i, k.neighbors);
    nearest := if n.Some? then n.value else [];
  }

  /** Once the loop has stopped, further iterations change nothing. */
  lemma {:induction false} StoppedStays<Pt, Pose, Cov, Acc, Twist>(k: Kernel<Pt, Pose, Cov, Acc, Twist>, scan: Cloud<Pt>,
                                                                   covariances: seq<Cov>, initial: Pose, m: nat, n: nat)
    requires m <= n
    requires var r := Iterations(k, scan, covariances, initial, m); m == n || r.Failure? || r.value.phase != Going
    ensures Iterations(k, scan, covariances, initial, n) == Iterations(k, scan, covariances, initial, m)
    decreases n
  {
    if m < n {
      StoppedStays(k, scan, covariances, initial, m, n - 1);
    }
  }

  /** A property of poses that every increment keeps holds of every iterate. */
  lemma {:induction false} IteratesKeep<Pt, Pose(!new), Cov, Acc, Twist(!new)>(k: Kernel<Pt, Pose, Cov, Acc, Twist>, scan: Cloud<Pt>,
                                                                   covariances: seq<Cov>, initial: Pose, n: nat, p: Pose -> bool)
    requires p(initial)
    requires forall twist, pose :: p(pose) ==> p(k.compose(twist, pose))
    ensures var r := Iterations(k, scan, covariances, initial, n); r.Success? ==> p(r.value.pose) && r.value.completed <= n
  {
    if n > 0 {
      IteratesKeep(k, scan, covariances, initial, n - 1, p);
      var before := Iterations(k, scan, covariances, initial, n - 1);
      if before.Success? && before.value.phase == Going {
        IterationKeeps(k, scan, covariances, n - 1, before.value, p);
      }
    }
  }

  lemma IterationKeeps<Pt, Pose(!new), Cov, Acc, Twist(!new)>(k: Kernel<Pt, Pose, Cov, Acc, Twist>, scan: Cloud<Pt>, covariances: seq<Cov>,
                                                              iteration: nat, s: Icp<Pose>, p: Pose -> bool)
    requires p(s.pose)
    requires forall twist, pose :: p(pose) ==> p(k.compose(twist, pose))
    ensures var r := Iteration(k, scan, covariances, iteration, s); r.Success? ==> p(r.value.pose) && r.value.completed <= s.completed + 1
  {
  }

  /** The initial pose moved by some twists, the first one first. */
  function Composed<Pt, Pose, Cov, Acc, Twist>(k: Kernel<Pt, Pose, Cov, Acc, Twist>, twists: seq<Twist>, initial: Pose): Pose {
    if twists == [] then initial else k.compose(twists[|twists| - 1], Composed(k, twists[..|twists| - 1], initial))
  }

  /** Each completed iteration has applied exactly one twist, and nothing else moves the pose. */
  lemma {:induction false} CompletedCountsTwists<Pt, Pose, Cov, Acc, Twist>(k: Kernel<Pt, Pose, Cov, Acc, Twist>, scan: Cloud<Pt>,
                                                                           covariances: seq<Cov>, initial: Pose, n: nat)
    returns (twists: seq<Twist>)
    requires Iterations(k, scan, covariances, initial, n).Success?
    ensures var s := Iterations(k, scan, covariances, initial, n).value;
      |twists| == s.completed <= n && s.pose == Composed(k, twists, initial) && (s.phase == Going ==> s.completed == n)
  {
    twists := [];
    if n > 0 {
      twists := CompletedCountsTwists(k, scan, covariances, initial, n - 1);
      var before := Iterations(k, scan, covariances, initial, n - 1).value;
      var after := Iterations(k, scan, covariances, initial, n).value;
      if after.completed > before.completed {
        var totals := Totals(k, k.add, scan, covariances, before.pose).value;
        twists := twists + [k.solve(totals).value];
        assert twists[..|twists| - 1] == twists[..before.completed];
      }
    }
  }

  /** There is no equation to solve at some totals: too few pairs or a deficient matrix. */
  predicate Undetermined<Pt, Pose, Cov, Acc, Twist>(k: Kernel<Pt, Pose, Cov, Acc, Twist>, totals: Acc) {
    k.pairs(totals) < 6 || k.rankDeficient(totals)
  }

  /** What the loop remembers is the mean residual at the pose before the last step. */
  lemma PreviousMean<Pt, Pose, Cov, Acc, Twist>(k: Kernel<Pt, Pose, Cov, Acc, Twist>, scan: Cloud<Pt>, covariances: seq<Cov>,
                                                initial: Pose, m: nat)
    requires m > 0 && Iterations(k, scan, covariances, initial, m).Success?
    requires Iterations(k, scan, covariances, initial, m).value.phase == Going
    ensures var earlier := Iterations(k, scan, covariances, initial, m - 1);
      && earlier.Success? && earlier.value.phase == Going
      && var t := Totals(k, k.add, scan, covariances, earlier.value.pose);
      && t.Success? && Iterations(k, scan, covariances, initial, m).value.previous == k.mean(t.value)
  {
  }

  /** From iterate m - 1 to iterate m the mean residual has stopped falling. */
  predicate Stalled<Pt, Pose, Cov, Acc, Twist>(k: Kernel<Pt, Pose, Cov, Acc, Twist>, scan: Cloud<Pt>, covariances: seq<Cov>,
                                               initial: Pose, m: nat)
  {
    && m > 0
    && var earlier, now := Iterations(k, scan, covariances, initial, m - 1), Iterations(k, scan, covariances, initial, m);
    && earlier.Success? && now.Success?
    && var before, after := Totals(k, k.add, scan, covariances, earlier.value.pose), Totals(k, k.add, scan, covariances, now.value.pose);
    && before.Success? && after.Success? && k.flat(k.mean(before.value), k.mean(after.value))
  }

  /** While the loop is going, every earlier pose had a step to take, not a small one, and a residual that was still
      falling. */
  lemma {:induction false} GoingMeans<Pt, Pose, Cov, Acc, Twist>(k: Kernel<Pt, Pose, Cov, Acc, Twist>, scan: Cloud<Pt>, covariances: seq<Cov>,
                                                                 initial: Pose, m: nat, n: nat)
    requires m < n && Iterations(k, scan, covariances, initial, n).Success?
    requires Iterations(k, scan, covariances, initial, n).value.phase == Going
    ensures var r := Iterations(k, scan, covariances, initial, m);
      && r.Success? && r.value.phase == Going
      && var t := Totals(k, k.add, scan, covariances, r.value.pose);
      && t.Success? && !Undetermined(k, t.value) && !Stalled(k, scan, covariances, initial, m)
      && k.solve(t.value).Some? && !k.small(k.solve(t.value).value)
    decreases n
  {
    if m < n - 1 {
      GoingMeans(k, scan, covariances, initial, m, n - 1);
    } else if m > 0 {
      PreviousMean(k, scan, covariances, initial, m);
    }
  }

  /** How and why iteration m stops the loop. Undetermined equations come first, then a residual that has stopped
      falling: neither moves the pose. Then there is either no solution, or a small step, which is taken. */
  ghost predicate StopReason<Pt, Pose, Cov, Acc, Twist>(k: Kernel<Pt, Pose, Cov, Acc, Twist>, scan: Cloud<Pt>, covariances: seq<Cov>,
                                                        initial: Pose, m: nat, before: Icp<Pose>, totals: Acc, after: Icp<Pose>)
  {
    var stalled, step := Stalled(k, scan, covariances, initial, m), k.solve(totals);
    && (after.phase == Degenerate <==> Undetermined(k, totals) || (!stalled && step.None?))
    && (after.phase == Settled <==> !Undetermined(k, totals) && (stalled || step.Some?))
    && (if after.phase == Settled && !stalled then
          && k.small(step.value) && after.completed == before.completed + 1 && after.pose == k.compose(step.value, before.pose)
        else after.completed == before.completed && after.pose == before.pose)
  }

  /** A loop that stopped did so at some iteration, for a reason found in the totals at that iterate and the one
      before. */
  lemma {:induction false} StoppedMeans<Pt, Pose, Cov, Acc, Twist>(k: Kernel<Pt, Pose, Cov, Acc, Twist>, scan: Cloud<Pt>, covariances: seq<Cov>,
                                                                   initial: Pose, n: nat) returns (m: nat)
    requires var r := Iterations(k, scan, covariances, initial, n); r.Success? && r.value.phase != Going
    ensures m < n
    ensures var before := Iterations(k, scan, covariances, initial, m);
      && before.Success? && before.value.phase == Going
      && var totals := Totals(k, k.add, scan, covariances, before.value.pose);
      && totals.Success?
      && StopReason(k, scan, covariances, initial, m, before.value, totals.value, Iterations(k, scan, covariances, initial, n).value)
  {
    var before := Iterations(k, scan, covariances, initial, n - 1);
    if before.value.phase != Going {
      m := StoppedMeans(k, scan, covariances, initial, n - 1);
    } else {
      m := n - 1;
      IterateStops(k, scan, covariances, initial, m);
    }
  }

  lemma IterateStops<Pt, Pose, Cov, Acc, Twist>(k: Kernel<Pt, Pose, Cov, Acc, Twist>, scan: Cloud<Pt>, covariances: seq<Cov>,
                                                initial: Pose, m: nat)
    requires var before, after := Iterations(k, scan, covariances, initial, m), Iterations(k, scan, covariances, initial, m + 1);
      before.Success? && before.value.phase == Going && after.Success? && after.value.phase != Going
    ensures var before, after := Iterations(k, scan, covariances, initial, m).value, Iterations(k, scan, covariances, initial, m + 1).value;
      && var totals := Totals(k, k.add, scan, covariances, before.pose);
      && totals.Success? && StopReason(k, scan, covariances, initial, m, before, totals.value, after)
  {
    if m > 0 {
      PreviousMean(k, scan, covariances, initial, m);
    }
  }

  /** The cloud of a surface lists its valid logical points once each, in storage order, with unit normals if the
      surface has normals. */
  lemma ExtractMeans<Pt>(s: Surface<Pt>, unit: Pt -> Pt) returns (at: seq<nat>)
    requires WellFormed(s)
    ensures forall i, j :: 0 <= i < j < |at| ==> at[i] < at[j]
    ensures forall i :: 0 <= i < |at| ==> at[i] < |s.points|
    ensures forall x: nat :: x in at <==> x < |s.points| && IsLogical(s, x) && ValidAt(s, x)
    ensures var cloud := Extract(s, unit);
      && |cloud.points| == |at| && (forall i :: 0 <= i < |at| ==> cloud.points[i] == s.points[at[i]])
      && if s.normals == [] then cloud.normals == []
         else |cloud.normals| == |at| && forall i :: 0 <= i < |at| ==> cloud.normals[i] == unit(s.normals[at[i]])
  {
    at := ValidIndices(s, Logical(s));
    ValidIndicesAscend(s, Logical(s));
    forall x: nat
      ensures x in at <==> x < |s.points| && IsLogical(s, x) && ValidAt(s, x)
    {
      ValidIndicesComplete(s, Logical(s), x);
    }
  }

  /** A solution holds the pose the loop ends with, made rigid; how far the loop got and why it ended; and the totals of
      the final pass at the delivered pose. */
  lemma SolutionMeans<Pt, Pose, Cov, Acc, Twist>(k: Kernel<Pt, Pose, Cov, Acc, Twist>, scan: Surface<Pt>, initial: Pose)
    returns (covariances: seq<Cov>, twists: seq<Twist>, last: Icp<Pose>)
    requires WellFormed(scan) && Aligned(k, scan, initial).Success?
    ensures var cloud, r := Extract(scan, k.unit), Aligned(k, scan, initial).value;
      && ScanCovariances(k, cloud) == Success(covariances)
      && Iterations(k, cloud, covariances, initial, k.maxIterations) == Success(last)
      && r.pose == k.finish(Composed(k, twists, initial)) && k.rigid(r.pose)
      && r.iterations == |twists| <= k.maxIterations
      && (r.convergence == Converged <==> last.phase == Settled)
      && (r.convergence == DegenerateInput <==> last.phase == Degenerate)
      && (r.convergence == NotConverged ==> r.iterations == k.maxIterations)
      && Totals(k, k.addFinal, cloud, covariances, r.pose) == Success(r.totals)
      && r.points == |cloud.points| > 0
  {
    var cloud := Extract(scan, k.unit);
    covariances := ScanCovariances(k, cloud).value;
    last := Iterations(k, cloud, covariances, initial, k.maxIterations).value;
    twists := CompletedCountsTwists(k, cloud, covariances, initial, k.maxIterations);
  }

  /** Which failure is reported: the first of no valid point, no covariances, an iterate out of the search's range, a
      pose that is not rigid, and a delivered pose out of the search's range. */
  lemma FailureMeans<Pt, Pose, Cov, Acc, Twist>(k: Kernel<Pt, Pose, Cov, Acc, Twist>, scan: Surface<Pt>, initial: Pose)
    requires WellFormed(scan)
    ensures var cloud, r := Extract(scan, k.unit), Aligned(k, scan, initial);
      var c := ScanCovariances(k, cloud);
      && (r == Failure(EmptyScan) <==> cloud.points == [])
      && (r == Failure(TooFewNeighbors) <==> cloud.points != [] && k.gicp && |cloud.points| < k.neighbors)
      && (r.Failure? && r.error.Covariance? <==> cloud.points != [] && c.Failure? && c.error.Covariance?)
      && (r.Failure? && r.error.Covariance? ==> r.error == c.error)
      && (r == Failure(NotRigid) <==>
            && cloud.points != [] && c.Success?
            && var run := Iterations(k, cloud, c.value, initial, k.maxIterations);
            && run.Success? && !k.rigid(k.finish(run.value.pose)))
      && (r == Failure(OutOfRange) <==>
            && cloud.points != [] && c.Success?
            && var run := Iterations(k, cloud, c.value, initial, k.maxIterations);
            if run.Failure? then true
            else k.rigid(k.finish(run.value.pose)) && !Searchable(k, Moved(k, cloud.points, k.finish(run.value.pose))))
  {
    var cloud := Extract(scan, k.unit);
    var lowest := CovariancesMean(k, cloud, |cloud.points|);
    if ScanCovariances(k, cloud).Success? {
      IterationsFail(k, cloud, ScanCovariances(k, cloud).value, initial, k.maxIterations);
    }
  }

  /** The estimate holds every point's covariance, or reports the lowest point that has none. */
  lemma {:induction false} CovariancesMean<Pt, Pose, Cov, Acc, Twist>(k: Kernel<Pt, Pose, Cov, Acc, Twist>, cloud: Cloud<Pt>, n: nat)
    returns (lowest: nat)
    ensures match Covariances(k, cloud, n)
            case Success(values) => |values| == n && forall i :: 0 <= i < n ==> CovarianceAt(k, 0, cloud, i) == Success(values[i])
            case Failure(e) =>
              && lowest < n && CovarianceAt(k, 0, cloud, lowest).Failure? && e == Covariance(CovarianceAt(k, 0, cloud, lowest).error)
              && forall i :: 0 <= i < lowest ==> CovarianceAt(k, 0, cloud, i).Success?
  {
    lowest := 0;
    if n > 0 {
      lowest := CovariancesMean(k, cloud, n - 1);
      if Covariances(k, cloud, n - 1).Success? {
        lowest := n - 1;
      }
    }
  }

  lemma {:induction false} FailureLeaves<Pt, Pose, Cov, Acc, Twist>(k: Kernel<Pt, Pose, Cov, Acc, Twist>, scan: Cloud<Pt>,
                                                                    covariances: seq<Cov>, initial: Pose, n: nat) returns (m: nat)
    requires Iterations(k, scan, covariances, initial, n).Failure?
    ensures m < n && LeavesRange(k, scan, covariances, initial, m)
    ensures Iterations(k, scan, covariances, initial, n) == Failure(OutOfRange)
  {
    if Iterations(k, scan, covariances, initial, n - 1).Failure? {
      m := FailureLeaves(k, scan, covariances, initial, n - 1);
    } else {
      m := n - 1;
    }
  }

  /** The loop fails exactly at an iterate that takes a point out of the search's range. */
  lemma IterationsFail<Pt, Pose, Cov, Acc, Twist>(k: Kernel<Pt, Pose, Cov, Acc, Twist>, scan: Cloud<Pt>, covariances: seq<Cov>,
                                                  initial: Pose, n: nat)
    ensures var r := Iterations(k, scan, covariances, initial, n);
      && (r.Failure? <==> exists m: nat :: m < n && LeavesRange(k, scan, covariances, initial, m))
      && (r.Failure? ==> r.error == OutOfRange)
  {
    if Iterations(k, scan, covariances, initial, n).Failure? {
      var m := FailureLeaves(k, scan, covariances, initial, n);
    } else if m: nat :| m < n && LeavesRange(k, scan, covariances, initial, m) {
      StoppedStays(k, scan, covariances, initial, m + 1, n);
    }
  }

  /** The m-th iterate, still going, takes a point out of the search's range. */
  predicate LeavesRange<Pt, Pose, Cov, Acc, Twist>(k: Kernel<Pt, Pose, Cov, Acc, Twist>, scan: Cloud<Pt>, covariances: seq<Cov>,
                                                   initial: Pose, m: nat)
  {
    var s := Iterations(k, scan, covariances, initial, m);
    s.Success? && s.value.phase == Going && !Searchable(k, Moved(k, scan.points, s.value.pose))
  }

  lemma {:induction false} CovariancesExact<Pt, Pose, Cov, Acc, Twist>(k: Kernel<Pt, Pose, Cov, Acc, Twist>, cloud: Cloud<Pt>, values: seq<Cov>)
    requires forall i: nat {:trigger values[i]} :: i < |values| ==> CovarianceAt(k, 0, cloud, i) == Success(values[i])
    ensures Covariances(k, cloud, |values|) == Success(values)
  {
    if values != [] {
      var n := |values| - 1;
      CovariancesExact(k, cloud, values[..n]);
      assert CovarianceAt(k, 0, cloud, n) == Success(values[n]);
      assert values == values[..n] + [values[n]];
    }
  }

  lemma {:induction false} CovariancesFail<Pt, Pose, Cov, Acc, Twist>(k: Kernel<Pt, Pose, Cov, Acc, Twist>, cloud: Cloud<Pt>, i: nat, n: nat)
    requires i < n && CovarianceAt(k, 0, cloud, i).Failure?
    requires Succeeds(0, i, (j: nat) => CovarianceAt(k, 0, cloud, j))
    ensures Covariances(k, cloud, n) == Failure(Covariance(CovarianceAt(k, 0, cloud, i).error))
    decreases n
  {
    if i + 1 < n {
      CovariancesFail(k, cloud, i, n - 1);
    } else {
      var f := (j: nat) => CovarianceAt(k, 0, cloud, j);
      CovariancesExact(k, cloud, seq(i, j requires 0 <= j < i && Succeeds(0, i, f) => f(j).value));
    }
  }

  lemma {:induction false} LowestFailure<T>(f: nat -> Result<T, Fault>, n: nat) returns (i: nat)
    requires !Succeeds(0, n, f)
    ensures i < n && f(i).Failure? && Succeeds(0, i, f)
  {
    if Succeeds(0, n - 1, f) {
      i := n - 1;
    } else {
      i := LowestFailure(f, n - 1);
    }
  }

  lemma CovarianceRunSucceeds<Pt, Pose, Cov, Acc, Twist>(k: Kernel<Pt, Pose, Cov, Acc, Twist>, cloud: Cloud<Pt>, buffer: seq<Cov>,
                                                         f: nat -> Result<Cov, Fault>)
    requires (forall i :: f(i) == CovarianceAt(k, 0, cloud, i)) && Succeeds(0, |buffer|, f)
    ensures var n := |buffer|;
      && FirstFault(RunFaults(FillJob(n, f), Slices(buffer))) == Completed
      && Covariances(k, cloud, n) == Success(BlockJobs.Join(RunCells(FillJob(n, f), Slices(buffer))))
  {
    var n := |buffer|;
    FillOverwrites(n, f, buffer);
    var values := BlockJobs.Join(RunCells(FillJob(n, f), Slices(buffer)));
    forall i: nat {:trigger values[i]} | i < n
      ensures CovarianceAt(k, 0, cloud, i) == Success(values[i])
    {
      assert f(i).Success?;
    }
    CovariancesExact(k, cloud, values);
  }

  lemma CovarianceRunFails<Pt, Pose, Cov, Acc, Twist>(k: Kernel<Pt, Pose, Cov, Acc, Twist>, cloud: Cloud<Pt>, buffer: seq<Cov>,
                                                      f: nat -> Result<Cov, Fault>)
    requires (forall i :: f(i) == CovarianceAt(k, 0, cloud, i)) && !Succeeds(0, |buffer|, f)
    ensures var outcome := FirstFault(RunFaults(FillJob(|buffer|, f), Slices(buffer)));
      outcome.Threw? && Covariances(k, cloud, |buffer|) == Failure(Covariance(outcome.fault))
  {
    var i := LowestFailure(f, |buffer|);
    FillFails(|buffer|, f, buffer, i);
    forall j: nat | j < i
      ensures CovarianceAt(k, 0, cloud, j).Success?
    {
      assert f(j).Success?;
    }
    assert f(i).Failure?;
    CovariancesFail(k, cloud, i, |buffer|);
  }

  /** A parallel covariance estimate ends as the sequential one: in the same values, or in the failure
      of the lowest point. */
  lemma CovarianceRun<Pt, Pose, Cov, Acc, Twist>(k: Kernel<Pt, Pose, Cov, Acc, Twist>, cloud: Cloud<Pt>, buffer: seq<Cov>,
                                                 f: nat -> Result<Cov, Fault>)
    requires forall i :: f(i) == CovarianceAt(k, 0, cloud, i)
    ensures var n := |buffer|;
      match FirstFault(RunFaults(FillJob(n, f), Slices(buffer)))
      case Threw(fault) => Covariances(k, cloud, n) == Failure(Covariance(fault))
      case Completed => Covariances(k, cloud, n) == Success(BlockJobs.Join(RunCells(FillJob(n, f), Slices(buffer))))
  {
    if Succeeds(0, |buffer|, f) {
      CovarianceRunSucceeds(k, cloud, buffer, f);
    } else {
      CovarianceRunFails(k, cloud, buffer, f);
    }
  }

  // ----- the prepared object -----

  function Resized<T>(s: seq<T>, n: nat, blank: T): (r: seq<T>)
    ensures |r| == n
  {
    if n <= |s| then s[..n] else s + seq(n - |s|, _ => blank)
  }

  /** A reference prepared for any number of scans. */
  class Prepared<Pt(==, !new), Pose, Cov, Acc, Twist> {
    const kernel: Kernel<Pt, Pose, Cov, Acc, Twist>
    const executor: CpuExecutor
    var transformed: seq<Pt>
    var packed: seq<Pt>
    var result: seq<int>
    var reduction: seq<Acc>

    ghost predicate Valid()
      reads this, executor
    {
      executor.Valid() && StableTies(kernel)
    }

    constructor (k: Kernel<Pt, Pose, Cov, Acc, Twist>, threads: nat, capacity: nat)
      requires threads > 0 && StableTies(k)
      ensures Valid() && kernel == k && fresh(executor)
    {
      kernel := k;
      executor := new CpuExecutor(threads, capacity);
      transformed, packed, result, reduction := [], [], [], [];
    }

    /** transform_points into the retained buffer. */
    method TransformPoints(points: seq<Pt>, pose: Pose)
      requires Valid()
      modifies this`transformed, executor
      ensures Valid() && transformed == Moved(kernel, points, pose)
    {
      var n, k := |points|, kernel;
      var f := (i: nat) => Success(if i < n then k.transform(pose, points[i]) else k.blank);
      var buffer := Resized(transformed, n, k.blank);
      var cells, outcome := executor.Run(FillJob(n, f), n, Slices(buffer));
      FillOverwrites(n, f, buffer);
      transformed := BlockJobs.Join(cells);
    }

    /** Search::query: packs, checks the range, then searches in parallel. */
    method Query() returns (ok: bool)
      requires Valid()
      modifies this`packed, this`result, executor
      ensures Valid() && (ok <==> Searchable(kernel, transformed))
      ensures ok ==> result == Neighbors(kernel, transformed)
    {
      packed := [];
      for i := 0 to |transformed|
        invariant Valid() && |packed| == i
        invariant forall j {:trigger transformed[j]} :: 0 <= j < i ==> kernel.narrow(transformed[j]) == Some(packed[j])
      {
        var q := kernel.narrow(transformed[i]);
        if q.None? {
          return false;
        }
        packed := packed + [q.value];
      }
      Search();
      ok := true;
    }

    /** The parallel part; `call` stands for whatever makes the library order each answer differently. */
    method Search()
      requires Valid() && |packed| == |transformed|
      requires forall j {:trigger transformed[j]} :: 0 <= j < |packed| ==> kernel.narrow(transformed[j]) == Some(packed[j])
      modifies this`result, executor
      ensures Valid() && Searchable(kernel, transformed) && result == Neighbors(kernel, transformed)
    {
      var n, k, q := |packed|, kernel, packed;
      var call: nat -> nat := *;
      var f := (i: nat) => Success(if i < n then NeighborOf(k, call(i), q[i]) else -1);
      result := seq(n, _ => -1);
      var cells, outcome := executor.Run(FillJob(n, f), n, Slices(result));
      FillOverwrites(n, f, result);
      result := BlockJobs.Join(cells);
      forall i | 0 <= i < n
        ensures k.narrow(transformed[i]).Some? && result[i] == NeighborOf(k, 0, k.narrow(transformed[i]).value)
      {
        NeighborIgnoresOrder(k, call(i), q[i]);
      }
    }

    /** Transform, search, accumulate per block, merge in block order. */
    method Evaluate(add: (Acc, Match<Pt, Pose, Cov>) -> Acc, scan: Cloud<Pt>, covariances: seq<Cov>, pose: Pose)
      returns (r: Result<Acc, AlignError>)
      requires Valid()
      modifies this, executor
      ensures Valid() && r == Totals(kernel, add, scan, covariances, pose)
    {
      TransformPoints(scan.points, pose);
      var ok := Query();
      if !ok {
        return Failure(OutOfRange);
      }
      var n := |transformed|;
      var adder := Adder(add, scan, covariances, pose, transformed, result);
      reduction := seq(Blocks(n), _ => kernel.zero);
      var cells, outcome := executor.Run(SumJob(n, adder), n, reduction);
      SumCells(n, adder, kernel.zero);
      reduction := cells;
      var total := MergeInBlockOrder(kernel.merge, kernel.zero, reduction);
      r := Success(total);
    }

    method EstimateCovariances(cloud: Cloud<Pt>) returns (r: Result<seq<Cov>, AlignError>)
      requires Valid()
      modifies executor
      ensures Valid() && r == CloudCovariances(kernel, cloud)
    {
      var n, k := |cloud.points|, kernel;
      if n < k.neighbors {
        return Failure(TooFewNeighbors);
      }
      var call: nat -> nat := *;
      var f := (i: nat) => CovarianceAt(k, call(i), cloud, i);
      forall i: nat
        ensures f(i) == CovarianceAt(k, 0, cloud, i)
      {
        CovarianceIgnoresOrder(k, call(i), cloud, i);
      }
      var buffer := seq(n, _ => k.blankCovariance);
      var cells, outcome := executor.Run(FillJob(n, f), n, Slices(buffer));
      CovarianceRun(k, cloud, buffer, f);
      match outcome {
        case Threw(fault) => r := Failure(Covariance(fault));
        case Completed => r := Success(BlockJobs.Join(cells));
      }
    }

    /** extract_valid. */
    method ExtractValid(s: Surface<Pt>) returns (cloud: Cloud<Pt>)
      requires WellFormed(s)
      ensures cloud == Extract(s, kernel.unit)
    {
      var points: seq<Pt>, normals: seq<Pt> := [], [];
      var indices := CollectValid(s);
      for i := 0 to |indices|
        invariant |points| == i && forall j :: 0 <= j < i ==> points[j] == s.points[indices[j]]
        invariant if s.normals == [] then normals == []
                  else |normals| == i && forall j :: 0 <= j < i ==> normals[j] == kernel.unit(s.normals[indices[j]])
      {
        points := points + [s.points[indices[i]]];
        if s.normals != [] {
          normals := normals + [kernel.unit(s.normals[indices[i]])];
        }
      }
      cloud := Cloud(points, normals);
    }

    /** The iteration loop of align. */
    method RunIterations(scan: Cloud<Pt>, covariances: seq<Cov>, initial: Pose) returns (r: Result<Icp<Pose>, AlignError>)
      requires Valid()
      modifies this, executor
      ensures Valid() && r == Iterations(kernel, scan, covariances, initial, kernel.maxIterations)
    {
      var icp := Icp(initial, 0, Going, 0.0);
      var iteration := 0;
      while iteration < kernel.maxIterations && icp.phase == Going
        invariant Valid() && iteration <= kernel.maxIterations
        invariant Iterations(kernel, scan, covariances, initial, iteration) == Success(icp)
        decreases kernel.maxIterations - iteration
      {
        var next := RunIteration(scan, covariances, iteration, icp);
        iteration := iteration + 1;
        if next.Failure? {
          StoppedStays(kernel, scan, covariances, initial, iteration, kernel.maxIterations);
          return next;
        }
        icp := next.value;
      }
      StoppedStays(kernel, scan, covariances, initial, iteration, kernel.maxIterations);
      r := Success(icp);
    }

    method RunIteration(scan: Cloud<Pt>, covariances: seq<Cov>, iteration: nat, icp: Icp<Pose>) returns (r: Result<Icp<Pose>, AlignError>)
      requires Valid() && icp.phase == Going
      modifies this, executor
      ensures Valid() && r == Iteration(kernel, scan, covariances, iteration, icp)
    {
      var totals := Evaluate(kernel.add, scan, covariances, icp.pose);
      if totals.Failure? {
        return Failure(totals.error);
      }
      var current, completed, phase, previous := Advance(iteration, icp.pose, icp.completed, icp.previous, totals.value);
      r := Success(Icp(current, completed, phase, previous));
    }

    /** The body of one iteration after its equations are summed. */
    method Advance(iteration: nat, pose: Pose, done: nat, before: real, totals: Acc)
      returns (current: Pose, completed: nat, phase: Phase, previous: real)
      ensures Icp(current, completed, phase, previous) == Iterate(kernel, iteration, Icp(pose, done, Going, before), totals)
    {
      current, completed, phase, previous := pose, done, Going, before;
      if kernel.pairs(totals) < 6 {
        phase := Degenerate;
        return;
      }
      if kernel.rankDeficient(totals) {
        phase := Degenerate;
        return;
      }
      var mean := kernel.mean(totals);
      if iteration > 0 && kernel.flat(previous, mean) {
        phase := Settled;
        return;
      }
      previous := mean;
      var twist := kernel.solve(totals);
      if twist.None? {
        phase := Degenerate;
        return;
      }
      current := kernel.compose(twist.value, current);
      completed := completed + 1;
      if kernel.small(twist.value) {
        phase := Settled;
      }
    }

    /** align: its result depends on the reference, the scan and the initial pose alone, whatever earlier
        scans left in the buffers and however many threads there are. */
    method Align(scan: Surface<Pt>, initial: Pose) returns (r: Result<Solution<Pose, Acc>, AlignError>)
      requires Valid() && WellFormed(scan)
      modifies this, executor
      ensures Valid() && r == Aligned(kernel, scan, initial)
    {
      var cloud := ExtractValid(scan);
      if cloud.points == [] {
        return Failure(EmptyScan);
      }
      var covariances: seq<Cov> := [];
      if kernel.gicp {
        var estimated := EstimateCovariances(cloud);
        if estimated.Failure? {
          return Failure(estimated.error);
        }
        covariances := estimated.value;
      }
      var icp := RunIterations(cloud, covariances, initial);
      if icp.Failure? {
        return Failure(icp.error);
      }
      var pose := kernel.finish(icp.value.pose);
      if !kernel.rigid(pose) {
        return Failure(NotRigid);
      }
      var totals := Evaluate(kernel.addFinal, cloud, covariances, pose);
      if totals.Failure? {
        return Failure(totals.error);
      }
      r := Success(Solution(pose, ConvergenceOf(icp.value.phase), icp.value.completed, totals.value, |cloud.points|));
    }
  }

  // ----- contexts -----

  datatype ContextError =
    | BadParameters | BadCapacity | BadReferenceData(f: SurfaceError) | NoThreads | EmptyReference | NoNormals | ZeroNormal
    | BadInput | ScanTooLarge | BadScan(f: SurfaceError) | Solver(e: AlignError)

  /** What a context is made from; the checks of the parameters and of a request are given. */
  datatype Setup<!Pt, !Pose, !Cov, !Acc, !Twist> = Setup(
    kernel: Kernel<Pt, Pose, Cov, Acc, Twist>, threads: nat,
    reference: Surface<Pt>, millimeters: bool, plane: bool, nonzero: Pt -> bool,
    parametersOk: bool, inputOk: (Surface<Pt>, Pose) -> bool, finite: Pt -> bool)

  /** What is wrong with a reference cloud. */
  function CloudFault<Pt, Pose, Cov, Acc, Twist>(s: Setup<Pt, Pose, Cov, Acc, Twist>, cloud: Cloud<Pt>): Option<ContextError> {
    if cloud.points == [] then Some(EmptyReference)
    else if s.plane && cloud.normals == [] then Some(NoNormals)
    else if s.plane && exists i :: 0 <= i < |cloud.normals| && !s.nonzero(cloud.normals[i]) then Some(ZeroNormal)
    else if s.kernel.gicp && CloudCovariances(s.kernel, cloud).Failure? then Some(Solver(CloudCovariances(s.kernel, cloud).error))
    else None
  }

  /** Why no context can be made. */
  ghost function CreateFault<Pt, Pose, Cov, Acc, Twist>(s: Setup<Pt, Pose, Cov, Acc, Twist>, capacity: nat): Option<ContextError> {
    if !s.parametersOk then Some(BadParameters)
    else if !s.millimeters || capacity == 0 || capacity > INT32_MAX then Some(BadCapacity)
    else match SurfaceFault(s.reference, s.finite)
      case Some(e) => Some(BadReferenceData(e))
      case None =>
        if s.threads == 0 then Some(NoThreads) else CloudFault(s, Extract(s.reference, s.kernel.unit))
  }

  /** The checks in their order: parameters, capacity, reference surface, threads, and of the reference cloud its points,
      normals and covariances. */
  lemma CreateFaultMeans<Pt, Pose, Cov, Acc, Twist>(s: Setup<Pt, Pose, Cov, Acc, Twist>, capacity: nat)
    ensures var fault, checked := CreateFault(s, capacity), SurfaceFault(s.reference, s.finite);
      var sized := s.parametersOk && s.millimeters && 0 < capacity <= 0x7fff_ffff;
      && (fault == Some(BadParameters) <==> !s.parametersOk)
      && (fault == Some(BadCapacity) <==> s.parametersOk && !sized)
      && (sized && checked.Some? ==> fault == Some(BadReferenceData(checked.value)))
      && (fault == Some(NoThreads) <==> sized && checked.None? && s.threads == 0)
      && (sized && checked.None? && s.threads > 0 ==>
            var cloud := Extract(s.reference, s.kernel.unit);
            var pointed := |cloud.points| > 0;
            var straight := s.plane ==> |cloud.normals| > 0 && forall i :: 0 <= i < |cloud.normals| ==> s.nonzero(cloud.normals[i]);
            && (fault == Some(EmptyReference) <==> !pointed)
            && (fault == Some(NoNormals) <==> pointed && s.plane && |cloud.normals| == 0)
            && (fault == Some(ZeroNormal) <==> pointed && !straight && |cloud.normals| > 0)
            && (fault.None? <==> pointed && straight && (s.kernel.gicp ==> CloudCovariances(s.kernel, cloud).Success?))
            && (pointed && straight && s.kernel.gicp && CloudCovariances(s.kernel, cloud).Failure? ==>
                  fault == Some(Solver(CloudCovariances(s.kernel, cloud).error))))
  {
  }

  ghost predicate Creatable<Pt, Pose, Cov, Acc, Twist>(s: Setup<Pt, Pose, Cov, Acc, Twist>, capacity: nat) {
    CreateFault(s, capacity).None?
  }

  /** What a context of some capacity answers. */
  ghost function ContextAnswer<Pt, Pose, Cov, Acc, Twist>(s: Setup<Pt, Pose, Cov, Acc, Twist>, capacity: nat, scan: Surface<Pt>, initial: Pose)
    : Result<Solution<Pose, Acc>, ContextError>
  {
    if Logical(scan) > capacity then Failure(ScanTooLarge)
    else if !s.inputOk(scan, initial) then Failure(BadInput)
    else match SurfaceFault(scan, s.finite)
      case Some(e) => Failure(BadScan(e))
      case None =>
        match Aligned(s.kernel, scan, initial)
        case Failure(e) => Failure(Solver(e))
        case Success(x) => Success(x)
  }

  /** The checks in their order: size, request and scan surface; then what the registration gives. */
  lemma ContextAnswerMeans<Pt, Pose, Cov, Acc, Twist>(s: Setup<Pt, Pose, Cov, Acc, Twist>, capacity: nat, scan: Surface<Pt>, initial: Pose)
    ensures var answer, checked := ContextAnswer(s, capacity, scan, initial), SurfaceFault(scan, s.finite);
      var fits := LogicalCount(|scan.points|, scan.grid) <= capacity;
      && (answer == Failure(ScanTooLarge) <==> !fits)
      && (answer == Failure(BadInput) <==> fits && !s.inputOk(scan, initial))
      && (fits && s.inputOk(scan, initial) && checked.Some? ==> answer == Failure(BadScan(checked.value)))
      && (fits && s.inputOk(scan, initial) && checked.None? ==>
            && WellFormed(scan)
            && var aligned := Aligned(s.kernel, scan, initial);
            if aligned.Success? then answer == Success(aligned.value) else answer == Failure(Solver(aligned.error)))
  {
  }

  class RegistrationContext<Pt(==, !new), Pose, Cov, Acc, Twist> {
    const setup: Setup<Pt, Pose, Cov, Acc, Twist>
    const capacity: nat
    const prepared: Prepared<Pt, Pose, Cov, Acc, Twist>

    ghost predicate Valid()
      reads this, prepared, prepared.executor
    {
      prepared.Valid() && prepared.kernel == setup.kernel
    }

    constructor (s: Setup<Pt, Pose, Cov, Acc, Twist>, size: nat, ready: Prepared<Pt, Pose, Cov, Acc, Twist>)
      requires ready.Valid() && ready.kernel == s.kernel
      ensures Valid() && setup == s && capacity == size && prepared == ready
    {
      setup, capacity, prepared := s, size, ready;
    }

    method Align(scan: Surface<Pt>, initial: Pose) returns (r: Result<Solution<Pose, Acc>, ContextError>)
      requires Valid() && |scan.points| <= SIZE_MAX
      modifies prepared, prepared.executor
      ensures Valid() && r == ContextAnswer(setup, capacity, scan, initial)
    {
      if LogicalCount(|scan.points|, scan.grid) > capacity {
        return Failure(ScanTooLarge);
      }
      if !setup.inputOk(scan, initial) {
        return Failure(BadInput);
      }
      var checked := ValidateSurfaceData(scan, setup.finite);
      if checked.Failure? {
        return Failure(BadScan(checked.error));
      }
      var aligned := prepared.Align(scan, initial);
      if aligned.Failure? {
        return Failure(Solver(aligned.error));
      }
      r := Success(aligned.value);
    }
  }

  /** checked_reference, and in GICP mode the covariances of the reference. */
  method CheckCloud<Pt(==, !new), Pose, Cov, Acc, Twist>(s: Setup<Pt, Pose, Cov, Acc, Twist>, cloud: Cloud<Pt>,
                                                         prepared: Prepared<Pt, Pose, Cov, Acc, Twist>)
    returns (fault: Option<ContextError>)
    requires prepared.Valid() && prepared.kernel == s.kernel
    modifies prepared.executor
    ensures prepared.Valid() && fault == CloudFault(s, cloud)
  {
    if cloud.points == [] {
      return Some(EmptyReference);
    }
    if s.plane {
      if cloud.normals == [] {
        return Some(NoNormals);
      }
      for i := 0 to |cloud.normals|
        invariant forall j :: 0 <= j < i ==> s.nonzero(cloud.normals[j])
      {
        if !s.nonzero(cloud.normals[i]) {
          return Some(ZeroNormal);
        }
      }
    }
    if s.kernel.gicp {
      var covariances := prepared.EstimateCovariances(cloud);
      if covariances.Failure? {
        return Some(Solver(covariances.error));
      }
    }
    fault := None;
  }

  /** RegistrationContext::create. */
  method CreateContext<Pt(==, !new), Pose, Cov, Acc, Twist>(s: Setup<Pt, Pose, Cov, Acc, Twist>, capacity: nat)
    returns (r: Result<RegistrationContext<Pt, Pose, Cov, Acc, Twist>, ContextError>)
    requires StableTies(s.kernel) && |s.reference.points| <= SIZE_MAX
    ensures r.Success? <==> Creatable(s, capacity)
    ensures r.Failure? ==> CreateFault(s, capacity) == Some(r.error)
    ensures r.Success? ==> r.value.Valid() && r.value.setup == s && r.value.capacity == capacity
    ensures r.Success? ==> fresh(r.value) && fresh(r.value.prepared) && fresh(r.value.prepared.executor)
  {
    if !s.parametersOk {
      return Failure(BadParameters);
    }
    if !s.millimeters || capacity == 0 || capacity > INT32_MAX {
      return Failure(BadCapacity);
    }
    var checked := ValidateSurfaceData(s.reference, s.finite);
    if checked.Failure? {
      return Failure(BadReferenceData(checked.error));
    }
    if s.threads == 0 {
      return Failure(NoThreads);
    }
    var prepared := new Prepared(s.kernel, s.threads, Max(capacity, checked.value));
    var cloud := prepared.ExtractValid(s.reference);
    var fault := CheckCloud(s, cloud, prepared);
    if fault.Some? {
      return Failure(fault.value);
    }
    var context := new RegistrationContext(s, capacity, prepared);
    r := Success(context);
  }

  /** register_surfaces: a context used once. */
  method RegisterSurfaces<Pt(==, !new), Pose, Cov, Acc, Twist>(s: Setup<Pt, Pose, Cov, Acc, Twist>, scan: Surface<Pt>, initial: Pose)
    returns (r: Result<Solution<Pose, Acc>, ContextError>)
    requires StableTies(s.kernel) && |s.reference.points| <= SIZE_MAX && |scan.points| <= SIZE_MAX
    ensures !s.inputOk(scan, initial) ==> r == Failure(BadInput)
    ensures s.inputOk(scan, initial) ==>
      r == match CreateFault(s, Logical(scan))
           case Some(e) => Failure(e)
           case None => ContextAnswer(s, Logical(scan), scan, initial)
  {
    if !s.inputOk(scan, initial) {
      return Failure(BadInput);
    }
    var context := CreateContext(s, LogicalCount(|scan.points|, scan.grid));
    if context.Failure? {
      return Failure(context.error);
    }
    r := context.value.Align(scan, initial);
  }

  /** A scan to register: its data and the initial pose. */
  datatype Request<Pt, +Pose> = Request(scan: Surface<Pt>, initial: Pose)

  ghost predicate Presentable<Pt, Pose>(request: Request<Pt, Pose>) {
    |request.scan.points| <= SIZE_MAX
  }

  /** The answer that a request determines. */
  ghost predicate IsAnswer<Pt, Pose, Cov, Acc, Twist>(s: Setup<Pt, Pose, Cov, Acc, Twist>, capacity: nat, request: Request<Pt, Pose>,
                                                      answer: Result<Solution<Pose, Acc>, ContextError>) {
    answer == ContextAnswer(s, capacity, request.scan, request.initial)
  }

  /** Any history of accepted and rejected scans: every answer is the one its own request determines. */
  method AlignHistory<Pt(==, !new), Pose, Cov, Acc, Twist>(context: RegistrationContext<Pt, Pose, Cov, Acc, Twist>,
                                                           history: seq<Request<Pt, Pose>>)
    returns (answers: seq<Result<Solution<Pose, Acc>, ContextError>>)
    requires context.Valid() && forall i :: 0 <= i < |history| ==> Presentable(history[i])
    modifies context.prepared, context.prepared.executor
    ensures context.Valid() && |answers| == |history|
    ensures forall i :: 0 <= i < |history| ==> IsAnswer(context.setup, context.capacity, history[i], answers[i])
  {
    answers := [];
    for i := 0 to |history|
      invariant context.Valid() && |answers| == i
      invariant forall j :: 0 <= j < i ==> IsAnswer(context.setup, context.capacity, history[j], answers[j])
    {
      assert Presentable(history[i]);
      var answer := context.Align(history[i].scan, history[i].initial);
      answers := answers + [answer];
    }
  }

  /** Neither threads nor spare capacity show in an answer, or in whether a context can be made. */
  lemma AnswerElsewhere<Pt(!new), Pose, Cov, Acc, Twist>(s: Setup<Pt, Pose, Cov, Acc, Twist>, threads: nat, capacity: nat,
                                                         scan: Surface<Pt>, initial: Pose)
    requires Creatable(s, capacity) && threads > 0 && 0 < Logical(scan) <= capacity
    ensures Creatable(s.(threads := threads), Logical(scan))
    ensures ContextAnswer(s.(threads := threads), Logical(scan), scan, initial) == ContextAnswer(s, capacity, scan, initial)
  {
  }

  /** Reuse agrees with one-shot registration: after any history, with any thread counts, a scan that fits
      the context gets the answer a fresh context would give it. */
  method ReuseAgrees<Pt(==, !new), Pose, Cov, Acc, Twist>(s: Setup<Pt, Pose, Cov, Acc, Twist>, threads: nat, capacity: nat,
                                                          history: seq<Request<Pt, Pose>>, request: Request<Pt, Pose>)
    returns (reused: Result<Solution<Pose, Acc>, ContextError>, oneShot: Result<Solution<Pose, Acc>, ContextError>)
    requires StableTies(s.kernel) && |s.reference.points| <= SIZE_MAX && Creatable(s, capacity) && threads > 0
    requires Presentable(request) && WellFormed(request.scan) && forall i :: 0 <= i < |history| ==> Presentable(history[i])
    ensures Logical(request.scan) <= capacity ==> reused == oneShot
    ensures Logical(request.scan) > capacity ==> reused == Failure(ScanTooLarge)
  {
    var created := CreateContext(s, capacity);
    var context := created.value;
    var answers := AlignHistory(context, history);
    reused := context.Align(request.scan, request.initial);
    PositiveSize(request.scan);
    if Logical(request.scan) <= capacity {
      AnswerElsewhere(s, threads, capacity, request.scan, request.initial);
    }
    oneShot := RegisterSurfaces(s.(threads := threads), request.scan, request.initial);
  }

  lemma PositiveSize<Pt>(s: Surface<Pt>)
    requires WellFormed(s)
    ensures Logical(s) > 0
  {
    if s.grid.Some? {
      MulMonotone(1, s.grid.value.width, s.grid.value.height);
    }
  }
}
