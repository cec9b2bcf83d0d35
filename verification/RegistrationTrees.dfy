/**
  What the library's search tree contributes to a registration: nothing. Under its contracts, two trees over
  the same points, however much their reports are off and however they order a ball, lead to one result.
 */
module RegistrationTrees {
  import opened Basics
  import opened Nearest
  import opened TreeSearch
  import opened Registration
  import opened Surfaces

  /** Two trees over the same points that meet the contracts. */
  ghost predicate Alike<Q(!new)>(a: Tree<Q>, b: Tree<Q>) {
    && ListsBalls(a) && ReportsNearest(a) && ListsBalls(b) && ReportsNearest(b)
    && a.size == b.size && a.distance == b.distance
  }

  lemma AlikeAgree<Q(!new)>(a: Tree<Q>, b: Tree<Q>, root: real -> real, limit: real, q: Q, k: nat)
    requires IsRoot(root) && Alike(a, b)
    ensures NearestOf(a, root, limit, 0, q) == NearestOf(b, root, limit, 0, q)
    ensures NeighborhoodOf(a, root, 0, q, k) == NeighborhoodOf(b, root, 0, q, k)
  {
    SearchIsExact(a, root, limit, 0, q);
    SearchIsExact(b, root, limit, 0, q);
    NeighborhoodIsExact(a, root, 0, q, k);
    NeighborhoodIsExact(b, root, 0, q, k);
    if k <= a.size {
      ChoiceIsUnique(Distance(a, q), Ids(a.size), k, NeighborhoodOf(a, root, 0, q, k).value, NeighborhoodOf(b, root, 0, q, k).value);
    }
  }

  /** The kernels differ in their trees only. */
  ghost predicate OtherTrees<Pt(!new), Pose, Cov, Acc, Twist>(k: Kernel<Pt, Pose, Cov, Acc, Twist>, l: Kernel<Pt, Pose, Cov, Acc, Twist>) {
    && l == k.(tree := l.tree, treeOf := l.treeOf) && IsRoot(k.root)
    && Alike(k.tree, l.tree) && forall cloud: Cloud<Pt> {:trigger k.treeOf(cloud)} :: Alike(k.treeOf(cloud), l.treeOf(cloud))
  }

  lemma SameMoved<Pt(!new), Pose, Cov, Acc, Twist>(k: Kernel<Pt, Pose, Cov, Acc, Twist>, l: Kernel<Pt, Pose, Cov, Acc, Twist>,
                                                   points: seq<Pt>, pose: Pose)
    requires k.transform == l.transform
    ensures Moved(k, points, pose) == Moved(l, points, pose)
  {
  }

  lemma SameNeighbors<Pt(!new), Pose, Cov, Acc, Twist>(k: Kernel<Pt, Pose, Cov, Acc, Twist>, l: Kernel<Pt, Pose, Cov, Acc, Twist>, moved: seq<Pt>)
    requires OtherTrees(k, l) && Searchable(k, moved)
    ensures Searchable(l, moved) && Neighbors(k, moved) == Neighbors(l, moved)
  {
    assert Searchable(l, moved);
    forall i | 0 <= i < |moved|
      ensures Neighbors(k, moved)[i] == Neighbors(l, moved)[i]
    {
      AlikeAgree(k.tree, l.tree, k.root, k.limit, k.narrow(moved[i]).value, 0);
    }
  }

  lemma SameTotals<Pt(!new), Pose, Cov, Acc, Twist>(k: Kernel<Pt, Pose, Cov, Acc, Twist>, l: Kernel<Pt, Pose, Cov, Acc, Twist>,
                                                    add: (Acc, Match<Pt, Pose, Cov>) -> Acc, scan: Cloud<Pt>, covariances: seq<Cov>, pose: Pose)
    requires OtherTrees(k, l)
    ensures Totals(k, add, scan, covariances, pose) == Totals(l, add, scan, covariances, pose)
  {
    var moved := Moved(k, scan.points, pose);
    SameMoved(k, l, scan.points, pose);
    if Searchable(k, moved) {
      SameNeighbors(k, l, moved);
    } else {
      assert !Searchable(l, moved);
    }
  }

  lemma SameIterate<Pt(!new), Pose, Cov, Acc, Twist>(k: Kernel<Pt, Pose, Cov, Acc, Twist>, l: Kernel<Pt, Pose, Cov, Acc, Twist>,
                                                     iteration: nat, s: Icp<Pose>, totals: Acc)
    requires OtherTrees(k, l)
    ensures Iterate(k, iteration, s, totals) == Iterate(l, iteration, s, totals)
  {
  }

  lemma {:induction false} SameIterations<Pt(!new), Pose, Cov, Acc, Twist>(k: Kernel<Pt, Pose, Cov, Acc, Twist>, l: Kernel<Pt, Pose, Cov, Acc, Twist>,
                                                                           scan: Cloud<Pt>, covariances: seq<Cov>, initial: Pose, n: nat)
    requires OtherTrees(k, l)
    ensures Iterations(k, scan, covariances, initial, n) == Iterations(l, scan, covariances, initial, n)
  {
    if n > 0 {
      SameIterations(k, l, scan, covariances, initial, n - 1);
      var before := Iterations(k, scan, covariances, initial, n - 1);
      if before.Success? && before.value.phase == Going {
        var s := before.value;
        SameTotals(k, l, k.add, scan, covariances, s.pose);
        var totals := Totals(k, k.add, scan, covariances, s.pose);
        if totals.Success? {
          SameIterate(k, l, n - 1, s, totals.value);
        }
      }
    }
  }

  lemma SameCovarianceAt<Pt(!new), Pose, Cov, Acc, Twist>(k: Kernel<Pt, Pose, Cov, Acc, Twist>, l: Kernel<Pt, Pose, Cov, Acc, Twist>,
                                                          cloud: Cloud<Pt>, i: nat)
    requires OtherTrees(k, l)
    ensures CovarianceAt(k, 0, cloud, i) == CovarianceAt(l, 0, cloud, i)
  {
    AlikeAgree(k.treeOf(cloud), l.treeOf(cloud), k.root, 0.0, i, k.neighbors);
  }

  lemma SameCovariances<Pt(!new), Pose, Cov, Acc, Twist>(k: Kernel<Pt, Pose, Cov, Acc, Twist>, l: Kernel<Pt, Pose, Cov, Acc, Twist>,
                                                         cloud: Cloud<Pt>, n: nat)
    requires OtherTrees(k, l)
    ensures Covariances(k, cloud, n) == Covariances(l, cloud, n)
  {
    forall i: nat
      ensures CovarianceAt(k, 0, cloud, i) == CovarianceAt(l, 0, cloud, i)
    {
      SameCovarianceAt(k, l, cloud, i);
    }
    var lowest := CovariancesMean(k, cloud, n);
    if Covariances(k, cloud, n).Success? {
      CovariancesExact(l, cloud, Covariances(k, cloud, n).value);
    } else {
      CovariancesFail(l, cloud, lowest, n);
    }
  }

  /** Registration does not depend on the trees. */
  lemma AlignedIgnoresTrees<Pt(!new), Pose, Cov, Acc, Twist>(k: Kernel<Pt, Pose, Cov, Acc, Twist>, l: Kernel<Pt, Pose, Cov, Acc, Twist>,
                                                             scan: Surface<Pt>, initial: Pose)
    requires OtherTrees(k, l) && WellFormed(scan)
    ensures Aligned(k, scan, initial) == Aligned(l, scan, initial)
  {
    var cloud := Extract(scan, k.unit);
    SameCovariances(k, l, cloud, |cloud.points|);
    var covariances := ScanCovariances(k, cloud);
    if covariances.Success? {
      SameIterations(k, l, cloud, covariances.value, initial, k.maxIterations);
      var icp := Iterations(k, cloud, covariances.value, initial, k.maxIterations);
      if icp.Success? {
        SameTotals(k, l, k.addFinal, cloud, covariances.value, k.finish(icp.value.pose));
      }
    }
  }
}
