/**
  What the registration solves: over exact reals, the totals of the block-wise parallel reduction are the
  plain sums of the objective's contributions over the accepted pairs, in point order.
 */
module RegistrationEquations {
  import opened Basics
  import opened Kernels
  import opened Objective
  import opened BlockJobs
  import opened GicpInformation
  import Nearest
  import T = TreeSearch
  import R = Registration

  function SumOf<T>(weigh: T -> real, items: seq<T>): real {
    if items == [] then 0.0 else SumOf(weigh, items[..|items| - 1]) + weigh(items[|items| - 1])
  }

  lemma {:induction false} SumOfConcat<T>(weigh: T -> real, s: seq<T>, t: seq<T>)
    ensures SumOf(weigh, s + t) == SumOf(weigh, s) + SumOf(weigh, t)
  {
    if t == [] {
      assert s + t == s;
    } else {
      var n := |t| - 1;
      SumOfConcat(weigh, s, t[..n]);
      assert (s + t)[..|s + t| - 1] == s + t[..n];
    }
  }

  /** What the points of [lo, hi) contribute, in order. */
  function Items<T>(item: nat -> seq<T>, lo: nat, hi: nat): seq<T>
    decreases hi - lo
  {
    if hi <= lo then [] else Items(item, lo, hi - 1) + item(hi - 1)
  }

  lemma {:induction false} ItemsSplit<T>(item: nat -> seq<T>, lo: nat, middle: nat, hi: nat)
    requires lo <= middle <= hi
    ensures Items(item, lo, hi) == Items(item, lo, middle) + Items(item, middle, hi)
    decreases hi
  {
    if middle < hi {
      ItemsSplit(item, lo, middle, hi - 1);
    }
  }

  /** Adding a point adds its items' weights to what is read off the total. */
  ghost predicate Adds<A(!new), T>(read: A -> real, weigh: T -> real, add: (A, nat) -> A, item: nat -> seq<T>) {
    forall a: A, i: nat {:trigger add(a, i)} :: read(add(a, i)) == read(a) + SumOf(weigh, item(i))
  }

  ghost predicate Merges<A(!new)>(read: A -> real, merge: (A, A) -> A, zero: A) {
    read(zero) == 0.0 && forall a: A, b: A {:trigger merge(a, b)} :: read(merge(a, b)) == read(a) + read(b)
  }

  lemma {:induction false} FoldReads<A(!new), T>(read: A -> real, weigh: T -> real, add: (A, nat) -> A, item: nat -> seq<T>,
                                                 start: A, lo: nat, hi: nat)
    requires Adds(read, weigh, add, item) && lo <= hi
    ensures read(Fold(add, start, lo, hi)) == read(start) + SumOf(weigh, Items(item, lo, hi))
    decreases hi
  {
    if lo < hi {
      FoldReads(read, weigh, add, item, start, lo, hi - 1);
      SumOfConcat(weigh, Items(item, lo, hi - 1), item(hi - 1));
    }
  }

  lemma {:induction false} MergeReads<A(!new), T>(read: A -> real, weigh: T -> real, add: (A, nat) -> A, item: nat -> seq<T>,
                                                  merge: (A, A) -> A, zero: A, n: nat, b: nat)
    requires Adds(read, weigh, add, item) && Merges(read, merge, zero) && b <= Executor.Blocks(n)
    ensures read(MergeFirst(merge, zero, BlockTotals(n, add, zero)[..b])) ==
      SumOf(weigh, Items(item, 0, if b == 0 then 0 else BlockEnd(n, b - 1)))
  {
    var totals := BlockTotals(n, add, zero);
    if b > 0 {
      MergeReads(read, weigh, add, item, merge, zero, n, b - 1);
      assert totals[..b][..b - 1] == totals[..b - 1];
      var begin, end := BlockBegin(b - 1), BlockEnd(n, b - 1);
      assert begin == if b == 1 then 0 else BlockEnd(n, b - 2);
      FoldReads(read, weigh, add, item, zero, begin, end);
      ItemsSplit(item, 0, begin, end);
      SumOfConcat(weigh, Items(item, 0, begin), Items(item, begin, end));
    }
  }

  /** In exact arithmetic the blocks do not show: the merged total reads as the plain sum over all points. */
  lemma BlocksVanish<A(!new), T>(read: A -> real, weigh: T -> real, add: (A, nat) -> A, item: nat -> seq<T>,
                                 merge: (A, A) -> A, zero: A, n: nat)
    requires Adds(read, weigh, add, item) && Merges(read, merge, zero)
    ensures read(FixedBlockTotal(n, add, merge, zero)) == SumOf(weigh, Items(item, 0, n))
  {
    var totals := BlockTotals(n, add, zero);
    MergeReads(read, weigh, add, item, merge, zero, n, Executor.Blocks(n));
    assert totals[..Executor.Blocks(n)] == totals;
  }

  lemma {:induction false} ItemsBounded<T>(item: nat -> seq<T>, n: nat)
    requires forall i: nat :: |item(i)| <= 1
    ensures |Items(item, 0, n)| <= n
  {
    if n > 0 {
      ItemsBounded(item, n - 1);
    }
  }

  lemma {:induction false} SameSum<T>(f: T -> real, g: T -> real, items: seq<T>)
    requires forall i :: 0 <= i < |items| ==> f(items[i]) == g(items[i])
    ensures SumOf(f, items) == SumOf(g, items)
  {
    if items != [] {
      SameSum(f, g, items[..|items| - 1]);
    }
  }

  /** How the kernel's totals hold an equation: which pairs count, what each gives the objective, and where the
      matrix, the right-hand side and the residual sum are read. */
  datatype Readout<!Pt, !Pose, !Cov, !Acc> = Readout(
    accepted: R.Match<Pt, Pose, Cov> -> bool,
    input: R.Match<Pt, Pose, Cov> -> Input<real>,
    entry: (Acc, nat, nat) -> real,
    gradient: (Acc, nat) -> real,
    residual: Acc -> real)

  /** A number held by the totals. */
  datatype Part = MatrixEntry(row: nat, column: nat) | GradientEntry(index: nat) | ResidualSum | PairCount

  predicate IsPart(part: Part) {
    match part
    case MatrixEntry(r, c) => r < 6 && c < 6
    case GradientEntry(r) => r < 6
    case _ => true
  }

  function ReadPart<Pt, Pose, Cov, Acc, Twist>(k: R.Kernel<Pt, Pose, Cov, Acc, Twist>, u: Readout<Pt, Pose, Cov, Acc>, part: Part): Acc -> real {
    (a: Acc) =>
      match part
      case MatrixEntry(r, c) => u.entry(a, r, c)
      case GradientEntry(r) => u.gradient(a, r)
      case ResidualSum => u.residual(a)
      case PairCount => k.pairs(a) as real
  }

  /** What the objective kernel contributes to it. */
  function Weigh(root: real -> real, part: Part): Input<real> -> real {
    (v: Input<real>) =>
      match part
      case MatrixEntry(r, c) => Entry(root, v)(r, c)
      case GradientEntry(r) => if r < 6 && |v.information| == 9 then GradientAt(RealOps(root), v, r) else 0.0
      case ResidualSum => RealOps(root).abs(Kernels.Residual(RealOps(root), v))
      case PairCount => 1.0
  }

  /** What a pair of points p and q contributes, in terms of its Jacobian J, information Omega and weight w: an entry of
      w J^T Omega J, an entry of -w J^T Omega (p - q), the distance between them or along the normal, and one. */
  function Contribution(root: real -> real, part: Part): Input<real> -> real {
    (v: Input<real>) =>
      if !IsPart(part) || |v.information| != 9 then 0.0
      else
        var w, p, q, n, omega := Weight(RealOps(root), v), v.point, v.reference, v.normal, Information(v);
        var x, y, z := p.x - q.x, p.y - q.y, p.z - q.z;
        match part
        case MatrixEntry(r, c) => Times(w, Form(omega, Column(p, r), Column(p, c)))
        case GradientEntry(r) => -Times(w, Form(omega, Column(p, r), Point(x, y, z)))
        case ResidualSum => Abs(if v.plane then NormalDot(n.x, n.y, n.z, x, y, z) else root(NormalDot(x, y, z, x, y, z)))
        case PairCount => 1.0
  }

  lemma ResidualContributes(root: real -> real, v: Input<real>)
    requires |v.information| == 9
    ensures Weigh(root, ResidualSum)(v) == Contribution(root, ResidualSum)(v)
  {
    if v.plane {
      PlaneResidual(RealOps(root), root, v);
    } else {
      PointResidual(RealOps(root), root, v);
    }
  }

  lemma GradientContributes(root: real -> real, v: Input<real>, r: nat)
    requires |v.information| == 9 && r < 6
    ensures Weigh(root, GradientEntry(r))(v) == Contribution(root, GradientEntry(r))(v)
  {
    GradientMeans(root, v, r);
  }

  lemma WeighMeans(root: real -> real, part: Part, v: Input<real>)
    requires IsPart(part) && |v.information| == 9
    ensures Weigh(root, part)(v) == Contribution(root, part)(v)
  {
    match part
    case MatrixEntry(r, c) => MatrixMeans(root, v, r, c);
    case GradientEntry(r) => GradientContributes(root, v, r);
    case ResidualSum => ResidualContributes(root, v);
    case PairCount =>
  }

  /** What an accepted pair adds to what is read; merging adds what is read. */
  ghost predicate Contributes<Pt(!new), Pose(!new), Cov(!new), Acc(!new), Twist>(
    k: R.Kernel<Pt, Pose, Cov, Acc, Twist>, u: Readout<Pt, Pose, Cov, Acc>, add: (Acc, R.Match<Pt, Pose, Cov>) -> Acc,
    read: Acc -> real, weigh: Input<real> -> real)
  {
    && Merges(read, k.merge, k.zero)
    && forall a: Acc, m: R.Match<Pt, Pose, Cov> {:trigger add(a, m)} ::
         read(add(a, m)) == read(a) + if u.accepted(m) then weigh(u.input(m)) else 0.0
  }

  /** An iteration accumulates what the objective kernel computes. */
  ghost predicate UsesObjective<Pt(!new), Pose(!new), Cov(!new), Acc(!new), Twist>(
    k: R.Kernel<Pt, Pose, Cov, Acc, Twist>, root: real -> real, u: Readout<Pt, Pose, Cov, Acc>)
  {
    && (forall m: R.Match<Pt, Pose, Cov> {:trigger u.input(m)} :: |u.input(m).information| == 9)
    && forall part: Part {:trigger IsPart(part)} :: IsPart(part) ==> Contributes(k, u, k.add, ReadPart(k, u, part), Weigh(root, part))
  }

  /** The objective's input for one scan point: none without an accepted neighbour. */
  function PairItem<Pt, Pose, Cov, Acc>(u: Readout<Pt, Pose, Cov, Acc>, scan: R.Cloud<Pt>, covariances: seq<Cov>, pose: Pose,
                                        moved: seq<Pt>, neighbors: seq<int>): nat -> seq<Input<real>> {
    (i: nat) =>
      if i >= |moved| || i >= |neighbors| || neighbors[i] < 0 then []
      else
        var m := R.Match(scan, covariances, pose, i, moved[i], neighbors[i]);
        if u.accepted(m) then [u.input(m)] else []
  }

  /** The objective's inputs at a pose, in point order. */
  function PairInputs<Pt, Pose, Cov, Acc, Twist>(k: R.Kernel<Pt, Pose, Cov, Acc, Twist>, u: Readout<Pt, Pose, Cov, Acc>,
                                                 scan: R.Cloud<Pt>, covariances: seq<Cov>, pose: Pose): seq<Input<real>>
    requires R.Searchable(k, R.Moved(k, scan.points, pose))
  {
    var moved := R.Moved(k, scan.points, pose);
    Items(PairItem(u, scan, covariances, pose, moved, R.Neighbors(k, moved)), 0, |moved|)
  }

  lemma PairAdds<Pt(!new), Pose(!new), Cov(!new), Acc(!new), Twist>(k: R.Kernel<Pt, Pose, Cov, Acc, Twist>,
                                                                     u: Readout<Pt, Pose, Cov, Acc>,
                                                                     added: (Acc, R.Match<Pt, Pose, Cov>) -> Acc,
                                                                     read: Acc -> real, weigh: Input<real> -> real,
                                                                     scan: R.Cloud<Pt>, covariances: seq<Cov>, pose: Pose,
                                                                     moved: seq<Pt>, neighbors: seq<int>)
    requires Contributes(k, u, added, read, weigh)
    ensures Adds(read, weigh, R.Adder(added, scan, covariances, pose, moved, neighbors),
                 PairItem(u, scan, covariances, pose, moved, neighbors))
  {
    var add, item := R.Adder(added, scan, covariances, pose, moved, neighbors), PairItem(u, scan, covariances, pose, moved, neighbors);
    forall a: Acc, i: nat
      ensures read(add(a, i)) == read(a) + SumOf(weigh, item(i))
    {
      if item(i) != [] {
        assert item(i)[..0] == [];
        assert SumOf(weigh, item(i)) == weigh(item(i)[0]);
      }
    }
  }

  /** Whatever is read off the totals of a pass is the plain sum over the accepted pairs. */
  lemma TotalIsSum<Pt(!new), Pose(!new), Cov(!new), Acc(!new), Twist>(k: R.Kernel<Pt, Pose, Cov, Acc, Twist>,
                                                                       u: Readout<Pt, Pose, Cov, Acc>,
                                                                       add: (Acc, R.Match<Pt, Pose, Cov>) -> Acc,
                                                                       read: Acc -> real, weigh: Input<real> -> real,
                                                                       scan: R.Cloud<Pt>, covariances: seq<Cov>, pose: Pose)
    requires Contributes(k, u, add, read, weigh) && R.Searchable(k, R.Moved(k, scan.points, pose))
    ensures var totals := R.Totals(k, add, scan, covariances, pose);
      totals.Success? && read(totals.value) == SumOf(weigh, PairInputs(k, u, scan, covariances, pose))
  {
    var moved := R.Moved(k, scan.points, pose);
    var neighbors := R.Neighbors(k, moved);
    PairAdds(k, u, add, read, weigh, scan, covariances, pose, moved, neighbors);
    BlocksVanish(read, weigh, R.Adder(add, scan, covariances, pose, moved, neighbors),
                 PairItem(u, scan, covariances, pose, moved, neighbors), k.merge, k.zero, |moved|);
  }

  /** The equation solved at a pose: its matrix is the sum of w J^T Omega J over the accepted pairs, its right-hand
      side the sum of -w J^T Omega (p - q), its residual the sum of the distances. */
  lemma EquationMeans<Pt(!new), Pose(!new), Cov(!new), Acc(!new), Twist>(k: R.Kernel<Pt, Pose, Cov, Acc, Twist>, root: real -> real,
                                                                          u: Readout<Pt, Pose, Cov, Acc>, scan: R.Cloud<Pt>,
                                                                          covariances: seq<Cov>, pose: Pose, part: Part)
    requires UsesObjective(k, root, u) && IsPart(part) && R.Searchable(k, R.Moved(k, scan.points, pose))
    ensures var totals := R.Totals(k, k.add, scan, covariances, pose);
      && totals.Success?
      && ReadPart(k, u, part)(totals.value) == SumOf(Contribution(root, part), PairInputs(k, u, scan, covariances, pose))
  {
    TotalIsSum(k, u, k.add, ReadPart(k, u, part), Weigh(root, part), scan, covariances, pose);
    var vs := PairInputs(k, u, scan, covariances, pose);
    InputsAreProper(k, root, u, scan, covariances, pose);
    forall i | 0 <= i < |vs|
      ensures Weigh(root, part)(vs[i]) == Contribution(root, part)(vs[i])
    {
      WeighMeans(root, part, vs[i]);
    }
    SameSum(Weigh(root, part), Contribution(root, part), vs);
  }

  lemma {:induction false} ItemsFrom<T>(item: nat -> seq<T>, n: nat, x: T) returns (i: nat)
    requires x in Items(item, 0, n)
    ensures i < n && x in item(i)
  {
    if x in item(n - 1) {
      i := n - 1;
    } else {
      i := ItemsFrom(item, n - 1, x);
    }
  }

  lemma InputsAreProper<Pt(!new), Pose(!new), Cov(!new), Acc(!new), Twist>(k: R.Kernel<Pt, Pose, Cov, Acc, Twist>, root: real -> real,
                                                                            u: Readout<Pt, Pose, Cov, Acc>, scan: R.Cloud<Pt>,
                                                                            covariances: seq<Cov>, pose: Pose)
    requires UsesObjective(k, root, u) && R.Searchable(k, R.Moved(k, scan.points, pose))
    ensures forall v :: v in PairInputs(k, u, scan, covariances, pose) ==> |v.information| == 9
  {
    var moved := R.Moved(k, scan.points, pose);
    var neighbors := R.Neighbors(k, moved);
    forall v | v in PairInputs(k, u, scan, covariances, pose)
      ensures |v.information| == 9
    {
      var i := ItemsFrom(PairItem(u, scan, covariances, pose, moved, neighbors), |moved|, v);
      assert v == u.input(R.Match(scan, covariances, pose, i, moved[i], neighbors[i]));
    }
  }

  lemma {:induction false} SumOfOnes<T>(weigh: T -> real, items: seq<T>)
    requires forall x :: weigh(x) == 1.0
    ensures SumOf(weigh, items) == |items| as real
  {
    if items != [] {
      SumOfOnes(weigh, items[..|items| - 1]);
    }
  }

  /** Where the items come from, when no point has more than one. */
  lemma {:induction false} ItemsAt<T>(item: nat -> seq<T>, n: nat) returns (at: seq<nat>)
    requires forall i: nat :: |item(i)| <= 1
    ensures forall j :: 0 <= j < |at| ==> at[j] < n && item(at[j]) != []
    ensures forall i, j :: 0 <= i < j < |at| ==> at[i] < at[j]
    ensures forall i: nat :: i < n && item(i) != [] ==> i in at
    ensures |Items(item, 0, n)| == |at| && forall j :: 0 <= j < |at| ==> Items(item, 0, n)[j] == item(at[j])[0]
  {
    at := [];
    if n > 0 {
      var before := ItemsAt(item, n - 1);
      at := before + if item(n - 1) == [] then [] else [n - 1];
      forall i: nat | i < n && item(i) != []
        ensures i in at
      {
        if i < n - 1 {
          assert i in before;
        } else {
          assert at[|before|] == i;
        }
      }
    }
  }

  /** The reference point that exhaustive search finds for a scan point at a pose; negative if there is none. */
  ghost function NearestIndex<Pt, Pose, Cov, Acc, Twist>(k: R.Kernel<Pt, Pose, Cov, Acc, Twist>, pose: Pose, p: Pt): int {
    match k.narrow(k.transform(pose, p))
    case None => -1
    case Some(q) => Nearest.Oracle(T.Distance(k.tree, q), k.limit, k.tree.size).1
  }

  /** Scan point i with the reference point found for it. */
  ghost function MatchAt<Pt, Pose, Cov, Acc, Twist>(k: R.Kernel<Pt, Pose, Cov, Acc, Twist>, scan: R.Cloud<Pt>, covariances: seq<Cov>,
                                                    pose: Pose, i: nat): R.Match<Pt, Pose, Cov>
    requires i < |scan.points| && NearestIndex(k, pose, scan.points[i]) >= 0
  {
    R.Match(scan, covariances, pose, i, k.transform(pose, scan.points[i]), NearestIndex(k, pose, scan.points[i]))
  }

  ghost predicate IsPair<Pt, Pose, Cov, Acc, Twist>(k: R.Kernel<Pt, Pose, Cov, Acc, Twist>, u: Readout<Pt, Pose, Cov, Acc>,
                                                    scan: R.Cloud<Pt>, covariances: seq<Cov>, pose: Pose, i: nat) {
    i < |scan.points| && NearestIndex(k, pose, scan.points[i]) >= 0 && u.accepted(MatchAt(k, scan, covariances, pose, i))
  }

  lemma PairItemMeans<Pt(!new), Pose(!new), Cov(!new), Acc(!new), Twist>(k: R.Kernel<Pt, Pose, Cov, Acc, Twist>,
                                                                          u: Readout<Pt, Pose, Cov, Acc>, scan: R.Cloud<Pt>,
                                                                          covariances: seq<Cov>, pose: Pose, i: nat)
    requires IsRoot(k.root) && T.ListsBalls(k.tree) && T.ReportsNearest(k.tree) && R.Searchable(k, R.Moved(k, scan.points, pose))
    requires i < |scan.points|
    ensures var moved := R.Moved(k, scan.points, pose);
      PairItem(u, scan, covariances, pose, moved, R.Neighbors(k, moved))(i) ==
        if IsPair(k, u, scan, covariances, pose, i) then [u.input(MatchAt(k, scan, covariances, pose, i))] else []
  {
    var moved := R.Moved(k, scan.points, pose);
    R.NeighborsAreExact(k, moved);
    assert R.Neighbors(k, moved)[i] == NearestIndex(k, pose, scan.points[i]);
  }

  /** Under the contracts of the library, the pairs of a pass are the accepted ones of each scan point, moved by the pose,
      and its nearest reference point, in point order. */
  lemma PairsMean<Pt(!new), Pose(!new), Cov(!new), Acc(!new), Twist>(k: R.Kernel<Pt, Pose, Cov, Acc, Twist>,
                                                                      u: Readout<Pt, Pose, Cov, Acc>, scan: R.Cloud<Pt>,
                                                                      covariances: seq<Cov>, pose: Pose) returns (at: seq<nat>)
    requires IsRoot(k.root) && T.ListsBalls(k.tree) && T.ReportsNearest(k.tree) && R.Searchable(k, R.Moved(k, scan.points, pose))
    ensures forall i, j :: 0 <= i < j < |at| ==> at[i] < at[j]
    ensures forall i: nat :: IsPair(k, u, scan, covariances, pose, i) ==> i in at
    ensures var vs := PairInputs(k, u, scan, covariances, pose);
      && |vs| == |at|
      && forall j :: 0 <= j < |at| ==>
           IsPair(k, u, scan, covariances, pose, at[j]) && vs[j] == u.input(MatchAt(k, scan, covariances, pose, at[j]))
  {
    var moved := R.Moved(k, scan.points, pose);
    var neighbors := R.Neighbors(k, moved);
    var item := PairItem(u, scan, covariances, pose, moved, neighbors);
    forall i: nat | i < |moved|
      ensures item(i) == if IsPair(k, u, scan, covariances, pose, i) then [u.input(MatchAt(k, scan, covariances, pose, i))] else []
    {
      PairItemMeans(k, u, scan, covariances, pose, i);
    }
    at := ItemsAt(item, |moved|);
  }

  /** The pair count is the number of accepted pairs, of which a point has at most one. */
  lemma PairsAreCounted<Pt(!new), Pose(!new), Cov(!new), Acc(!new), Twist>(k: R.Kernel<Pt, Pose, Cov, Acc, Twist>,
                                                                            u: Readout<Pt, Pose, Cov, Acc>,
                                                                            add: (Acc, R.Match<Pt, Pose, Cov>) -> Acc,
                                                                            weigh: Input<real> -> real,
                                                                            scan: R.Cloud<Pt>, covariances: seq<Cov>, pose: Pose)
    requires Contributes(k, u, add, ReadPart(k, u, PairCount), weigh) && forall v :: weigh(v) == 1.0
    requires R.Searchable(k, R.Moved(k, scan.points, pose))
    ensures var totals := R.Totals(k, add, scan, covariances, pose);
      totals.Success? && k.pairs(totals.value) == |PairInputs(k, u, scan, covariances, pose)| <= |scan.points|
  {
    TotalIsSum(k, u, add, ReadPart(k, u, PairCount), weigh, scan, covariances, pose);
    SumOfOnes(weigh, PairInputs(k, u, scan, covariances, pose));
    var moved := R.Moved(k, scan.points, pose);
    ItemsBounded(PairItem(u, scan, covariances, pose, moved, R.Neighbors(k, moved)), |moved|);
  }

  lemma {:induction false} AccumulatedIsSum(root: real -> real, vs: seq<Input<real>>, r: nat, c: nat)
    ensures Accumulated(root, vs, r, c) == SumOf(Weigh(root, MatrixEntry(r, c)), vs)
  {
    if vs != [] {
      AccumulatedIsSum(root, vs[..|vs| - 1], r, c);
    }
  }

  lemma MatrixIsAccumulated<Pt(!new), Pose(!new), Cov(!new), Acc(!new), Twist>(k: R.Kernel<Pt, Pose, Cov, Acc, Twist>, root: real -> real,
                                                                                u: Readout<Pt, Pose, Cov, Acc>, scan: R.Cloud<Pt>,
                                                                                covariances: seq<Cov>, pose: Pose, r: nat, c: nat)
    requires UsesObjective(k, root, u) && r < 6 && c < 6 && R.Searchable(k, R.Moved(k, scan.points, pose))
    ensures var totals := R.Totals(k, k.add, scan, covariances, pose);
      totals.Success? && u.entry(totals.value, r, c) == Accumulated(root, PairInputs(k, u, scan, covariances, pose), r, c)
  {
    var part := MatrixEntry(r, c);
    assert IsPart(part);
    TotalIsSum(k, u, k.add, ReadPart(k, u, part), Weigh(root, part), scan, covariances, pose);
    AccumulatedIsSum(root, PairInputs(k, u, scan, covariances, pose), r, c);
  }

  /** The normal matrix held by the totals. */
  function MatrixOf<Pt, Pose, Cov, Acc>(u: Readout<Pt, Pose, Cov, Acc>, totals: Acc): (nat, nat) -> real {
    (r: nat, c: nat) => u.entry(totals, r, c)
  }

  lemma QuadraticSame(f: (nat, nat) -> real, g: (nat, nat) -> real, x: seq<real>)
    requires |x| == 6 && forall r: nat, c: nat :: r < 6 && c < 6 ==> f(r, c) == g(r, c)
    ensures QuadraticForm(f, x, 6) == QuadraticForm(g, x, 6)
  {
    var zero := (r: nat, c: nat) => 0.0;
    QuadraticAdds(g, zero, f, x, 6);
    ZeroQuadratic(zero, x, 6);
  }

  /** Whatever the pose, the matrix given to the solver is symmetric and positive semidefinite as soon as
      every accepted pair is weighted by such an information. */
  lemma EquationIsSemidefinite<Pt(!new), Pose(!new), Cov(!new), Acc(!new), Twist>(k: R.Kernel<Pt, Pose, Cov, Acc, Twist>,
                                                                                   root: real -> real,
                                                                                   u: Readout<Pt, Pose, Cov, Acc>,
                                                                                   scan: R.Cloud<Pt>, covariances: seq<Cov>,
                                                                                   pose: Pose, x: seq<real>)
    requires UsesObjective(k, root, u) && R.Searchable(k, R.Moved(k, scan.points, pose)) && |x| == 6
    requires var vs := PairInputs(k, u, scan, covariances, pose); forall i :: 0 <= i < |vs| ==> Sensible(vs[i])
    ensures var totals := R.Totals(k, k.add, scan, covariances, pose);
      && totals.Success?
      && QuadraticForm(MatrixOf(u, totals.value), x, 6) >= 0.0
      && forall r: nat, c: nat :: r < 6 && c < 6 ==> u.entry(totals.value, r, c) == u.entry(totals.value, c, r)
  {
    var totals, vs := R.Totals(k, k.add, scan, covariances, pose), PairInputs(k, u, scan, covariances, pose);
    forall r: nat, c: nat | r < 6 && c < 6
      ensures u.entry(totals.value, r, c) == Accumulated(root, vs, r, c) == u.entry(totals.value, c, r)
    {
      MatrixIsAccumulated(k, root, u, scan, covariances, pose, r, c);
      MatrixIsAccumulated(k, root, u, scan, covariances, pose, c, r);
      AccumulatedIsSymmetric(root, vs, r, c);
    }
    QuadraticSame(MatrixOf(u, totals.value), AccumulatedEntries(root, vs), x);
    AccumulatedIsSemidefinite(root, vs, x);
  }

  // ----- the final pass -----

  /** The metrics' pass adds squared residuals. */
  function Squared(root: real -> real): Input<real> -> real {
    (v: Input<real>) => Times(Kernels.Residual(RealOps(root), v), Kernels.Residual(RealOps(root), v))
  }

  /** The squared distance between the points, or along the normal. */
  function SquaredDistance(): Input<real> -> real {
    (v: Input<real>) =>
      var p, q, n := v.point, v.reference, v.normal;
      var x, y, z := p.x - q.x, p.y - q.y, p.z - q.z;
      if v.plane then Times(NormalDot(n.x, n.y, n.z, x, y, z), NormalDot(n.x, n.y, n.z, x, y, z)) else NormalDot(x, y, z, x, y, z)
  }

  lemma SquaredMeans(root: real -> real, v: Input<real>)
    requires IsRoot(root)
    ensures Squared(root)(v) == SquaredDistance()(v)
  {
    ResidualMeans(root, v);
  }

  function One(): Input<real> -> real {
    (v: Input<real>) => 1.0
  }

  ghost predicate UsesMetrics<Pt(!new), Pose(!new), Cov(!new), Acc(!new), Twist>(
    k: R.Kernel<Pt, Pose, Cov, Acc, Twist>, root: real -> real, u: Readout<Pt, Pose, Cov, Acc>)
  {
    && Contributes(k, u, k.addFinal, u.residual, Squared(root))
    && Contributes(k, u, k.addFinal, ReadPart(k, u, PairCount), One())
  }

  lemma SquareNotNegative(x: real)
    ensures Times(x, x) >= 0.0
  {
  }

  lemma {:induction false} SquaresAdd(root: real -> real, vs: seq<Input<real>>)
    ensures SumOf(Squared(root), vs) >= 0.0
  {
    if vs != [] {
      SquaresAdd(root, vs[..|vs| - 1]);
      SquareNotNegative(Kernels.Residual(RealOps(root), vs[|vs| - 1]));
    }
  }

  /** What the metrics are computed from: the sum of the squared distances, not negative, over a number of pairs that
      is at most the number of points. */
  lemma MetricsMean<Pt(!new), Pose(!new), Cov(!new), Acc(!new), Twist>(k: R.Kernel<Pt, Pose, Cov, Acc, Twist>, root: real -> real,
                                                                        u: Readout<Pt, Pose, Cov, Acc>, scan: R.Cloud<Pt>,
                                                                        covariances: seq<Cov>, pose: Pose)
    requires UsesMetrics(k, root, u) && R.Searchable(k, R.Moved(k, scan.points, pose))
    ensures var totals, vs := R.Totals(k, k.addFinal, scan, covariances, pose), PairInputs(k, u, scan, covariances, pose);
      && totals.Success?
      && u.residual(totals.value) >= 0.0
      && (IsRoot(root) ==> u.residual(totals.value) == SumOf(SquaredDistance(), vs))
      && k.pairs(totals.value) == |vs| <= |scan.points|
  {
    var vs := PairInputs(k, u, scan, covariances, pose);
    TotalIsSum(k, u, k.addFinal, u.residual, Squared(root), scan, covariances, pose);
    PairsAreCounted(k, u, k.addFinal, One(), scan, covariances, pose);
    SquaresAdd(root, vs);
    if IsRoot(root) {
      forall i | 0 <= i < |vs|
        ensures Squared(root)(vs[i]) == SquaredDistance()(vs[i])
      {
        SquaredMeans(root, vs[i]);
      }
      SameSum(Squared(root), SquaredDistance(), vs);
    }
  }

  // ----- generalized registration -----

  /** The covariances of a match are there. */
  predicate HasCovariances<Pt, Pose>(m: R.Match<Pt, Pose, seq<real>>, reference: seq<seq<real>>) {
    && m.target < |reference| && m.source < |m.covariances|
    && |reference[m.target]| == 9 && |m.covariances[m.source]| == 9
  }

  /** The reference covariance plus the turned scan covariance. */
  function SumOfCovariances<Pt, Pose>(m: R.Match<Pt, Pose, seq<real>>, reference: seq<seq<real>>, rotation: Pose -> seq<real>): seq<real>
    requires HasCovariances(m, reference) && |rotation(m.pose)| == 9
  {
    Added(reference[m.target], Turned(rotation(m.pose), m.covariances[m.source]))
  }

  /** In GICP mode a pair is weighted by the inverse of that sum, where there is one. Nothing is said of other pairs,
      nor of which pairs are accepted. */
  ghost predicate UsesGicp<Pt(!new), Pose(!new), Acc>(u: Readout<Pt, Pose, seq<real>, Acc>, reference: seq<seq<real>>, rotation: Pose -> seq<real>)
  {
    && (forall pose {:trigger rotation(pose)} :: |rotation(pose)| == 9)
    && forall m: R.Match<Pt, Pose, seq<real>> {:trigger u.input(m)} ::
         var v := u.input(m);
         && v.generalized && !v.plane && v.delta > 0.0
         && (HasCovariances(m, reference) ==>
               forall omega: seq<real> {:trigger IsInverse(omega, SumOfCovariances(m, reference, rotation))} ::
                 IsInverse(omega, SumOfCovariances(m, reference, rotation)) ==> v.information == omega)
  }

  /** Every covariance the estimate returns is V diag(epsilon, 1, 1) V^T for orthonormal eigenvectors. */
  ghost predicate Regularizes<Pt(!new), Pose, Acc, Twist>(k: R.Kernel<Pt, Pose, seq<real>, Acc, Twist>, epsilon: real) {
    forall cloud: R.Cloud<Pt>, ids: seq<nat> {:trigger k.covarianceOf(cloud, ids)} ::
      k.covarianceOf(cloud, ids).Success? ==> IsRegularized(epsilon, k.covarianceOf(cloud, ids).value)
  }

  lemma {:induction false} CovariancesRegularized<Pt(!new), Pose, Acc, Twist>(k: R.Kernel<Pt, Pose, seq<real>, Acc, Twist>, epsilon: real,
                                                                              cloud: R.Cloud<Pt>, n: nat)
    requires Regularizes(k, epsilon)
    ensures var r := R.Covariances(k, cloud, n); r.Success? ==>
      |r.value| == n && forall i :: 0 <= i < n ==> IsRegularized(epsilon, r.value[i])
  {
    if n > 0 {
      CovariancesRegularized(k, epsilon, cloud, n - 1);
    }
  }

  lemma NeighborInRange<Pt(!new), Pose, Cov, Acc, Twist>(k: R.Kernel<Pt, Pose, Cov, Acc, Twist>, moved: seq<Pt>, i: nat)
    requires T.ListsBalls(k.tree) && R.Searchable(k, moved) && i < |moved|
    ensures R.Neighbors(k, moved)[i] < k.tree.size
  {
    var q := k.narrow(moved[i]).value;
    if k.tree.kth(q, 1).Some? {
      var radius := Nearest.Radius(k.root, k.tree.kth(q, 1).value);
      var ties := k.tree.ball(0, q, radius);
      Nearest.RecheckIsNearest(T.Distance(k.tree, q), k.limit, ties);
      assert Nearest.ListsBall(T.Distance(k.tree, q), k.tree.size, radius, ties);
    }
  }

  /** For a positive epsilon and orthonormal eigenvectors, GICP hands the solver a symmetric positive semidefinite
      matrix, whichever pairs it accepts: the covariances are those estimated from the two clouds. */
  lemma GicpEquation<Pt(!new), Pose(!new), Acc(!new), Twist>(k: R.Kernel<Pt, Pose, seq<real>, Acc, Twist>, root: real -> real,
                                                             u: Readout<Pt, Pose, seq<real>, Acc>, epsilon: real, rotation: Pose -> seq<real>,
                                                             reference: R.Cloud<Pt>, scan: R.Cloud<Pt>, pose: Pose, x: seq<real>)
    requires epsilon > 0.0 && Regularizes(k, epsilon) && T.ListsBalls(k.tree) && k.tree.size == |reference.points|
    requires R.CloudCovariances(k, reference).Success? && R.CloudCovariances(k, scan).Success?
    requires UsesObjective(k, root, u) && UsesGicp(u, R.CloudCovariances(k, reference).value, rotation)
    requires R.Searchable(k, R.Moved(k, scan.points, pose)) && |x| == 6
    ensures var totals := R.Totals(k, k.add, scan, R.CloudCovariances(k, scan).value, pose);
      && totals.Success?
      && QuadraticForm(MatrixOf(u, totals.value), x, 6) >= 0.0
      && forall r: nat, c: nat :: r < 6 && c < 6 ==> u.entry(totals.value, r, c) == u.entry(totals.value, c, r)
  {
    var covariances := R.CloudCovariances(k, scan).value;
    GicpInputsSensible(k, u, epsilon, rotation, R.CloudCovariances(k, reference).value, reference, scan, covariances, pose);
    EquationIsSemidefinite(k, root, u, scan, covariances, pose, x);
  }

  lemma GicpInputsSensible<Pt(!new), Pose(!new), Acc(!new), Twist>(k: R.Kernel<Pt, Pose, seq<real>, Acc, Twist>,
                                                                   u: Readout<Pt, Pose, seq<real>, Acc>, epsilon: real, rotation: Pose -> seq<real>,
                                                                   prepared: seq<seq<real>>, reference: R.Cloud<Pt>,
                                                                   scan: R.Cloud<Pt>, covariances: seq<seq<real>>, pose: Pose)
    requires epsilon > 0.0 && Regularizes(k, epsilon) && T.ListsBalls(k.tree) && k.tree.size == |reference.points|
    requires R.CloudCovariances(k, reference) == Success(prepared) && R.CloudCovariances(k, scan) == Success(covariances)
    requires UsesGicp(u, prepared, rotation) && R.Searchable(k, R.Moved(k, scan.points, pose))
    ensures forall v :: v in PairInputs(k, u, scan, covariances, pose) ==> Sensible(v)
  {
    CovariancesRegularized(k, epsilon, reference, |reference.points|);
    CovariancesRegularized(k, epsilon, scan, |scan.points|);
    var moved := R.Moved(k, scan.points, pose);
    var neighbors := R.Neighbors(k, moved);
    forall v | v in PairInputs(k, u, scan, covariances, pose)
      ensures Sensible(v)
    {
      var i := ItemsFrom(PairItem(u, scan, covariances, pose, moved, neighbors), |moved|, v);
      NeighborInRange(k, moved, i);
      var m := R.Match(scan, covariances, pose, i, moved[i], neighbors[i]);
      assert v == u.input(m);
      var omega := GicpInverseExists(epsilon, prepared[m.target], rotation(pose), covariances[i]);
      assert IsInverse(omega, SumOfCovariances(m, prepared, rotation));
      GicpSensible(v, epsilon, prepared[m.target], rotation(pose), covariances[i]);
    }
  }

  // ----- the source's accumulation -----

  /** A block's accumulation: the normal matrix, the right-hand side, the residual sum and the number of pairs. */
  datatype Accumulation = Accumulation(matrix: (nat, nat) -> real, gradient: nat -> real, residual: real, count: nat)

  function Empty(): Accumulation {
    Accumulation((r: nat, c: nat) => 0.0, (r: nat) => 0.0, 0.0, 0)
  }

  function Combine(a: Accumulation, b: Accumulation): Accumulation {
    Accumulation((r: nat, c: nat) => a.matrix(r, c) + b.matrix(r, c), (r: nat) => a.gradient(r) + b.gradient(r),
                 a.residual + b.residual, a.count + b.count)
  }

  /** One pair's contribution. */
  function Contributed(root: real -> real, v: Input<real>): Accumulation {
    Accumulation((r: nat, c: nat) => Weigh(root, MatrixEntry(r, c))(v), (r: nat) => Weigh(root, GradientEntry(r))(v),
                 Weigh(root, ResidualSum)(v), 1)
  }

  /** What the readout finds in such an accumulation. */
  function ReadoutOf<Pt, Pose, Cov>(accepted: R.Match<Pt, Pose, Cov> -> bool, input: R.Match<Pt, Pose, Cov> -> Input<real>)
    : Readout<Pt, Pose, Cov, Accumulation>
  {
    Readout(accepted, input, (a: Accumulation, r: nat, c: nat) => a.matrix(r, c), (a: Accumulation, r: nat) => a.gradient(r),
            (a: Accumulation) => a.residual)
  }

  /** The accumulation loop uses the objective, for any acceptance test. */
  lemma AccumulationUsesObjective<Pt(!new), Pose(!new), Cov(!new), Twist>(k: R.Kernel<Pt, Pose, Cov, Accumulation, Twist>, root: real -> real,
                                                                           accepted: R.Match<Pt, Pose, Cov> -> bool,
                                                                           input: R.Match<Pt, Pose, Cov> -> Input<real>)
    requires forall m {:trigger input(m)} :: |input(m).information| == 9
    requires k.zero == Empty() && (forall a, b :: k.merge(a, b) == Combine(a, b)) && (forall a :: k.pairs(a) == a.count)
    requires forall a, m :: k.add(a, m) == if accepted(m) then Combine(a, Contributed(root, input(m))) else a
    ensures UsesObjective(k, root, ReadoutOf(accepted, input))
  {
  }

  /** The inputs of GICP, for any normals and points. */
  ghost function GicpInput<Pt, Pose>(point: R.Match<Pt, Pose, seq<real>> -> Point<real>, target: R.Match<Pt, Pose, seq<real>> -> Point<real>,
                                     delta: real, reference: seq<seq<real>>, rotation: Pose -> seq<real>)
    : R.Match<Pt, Pose, seq<real>> -> Input<real>
  {
    (m: R.Match<Pt, Pose, seq<real>>) =>
      Input(point(m), target(m), Point(0.0, 0.0, 0.0),
            if HasCovariances(m, reference) && |rotation(m.pose)| == 9 then InverseOf(SumOfCovariances(m, reference, rotation))
            else seq(9, _ => 0.0), delta, false, true)
  }

  /** The source's inputs are such inputs, whatever the acceptance test: it need not look at covariances. */
  lemma InputsUseGicp<Pt(!new), Pose(!new)>(accepted: R.Match<Pt, Pose, seq<real>> -> bool,
                                            point: R.Match<Pt, Pose, seq<real>> -> Point<real>,
                                            target: R.Match<Pt, Pose, seq<real>> -> Point<real>, delta: real,
                                            reference: seq<seq<real>>, rotation: Pose -> seq<real>)
    requires delta > 0.0 && forall pose {:trigger rotation(pose)} :: |rotation(pose)| == 9
    ensures UsesGicp(ReadoutOf(accepted, GicpInput(point, target, delta, reference, rotation)), reference, rotation)
  {
  }
}
