/**
  Euclidean clustering as in src/backends/pcl/pcl_cluster_backend.cpp: candidates within the
  tolerance of each other are united, and the trees are numbered in order of first appearance.
 */
module Clustering {
  import opened Basics
  import opened DisjointSets

  // ----- canonical labels -----

  /** The first label not used yet. */
  function NextLabel(labels: seq<int>): (next: nat)
    ensures forall i :: 0 <= i < |labels| ==> labels[i] < next
  {
    if labels == [] then 0 else Max(NextLabel(labels[..|labels| - 1]), labels[|labels| - 1] + 1)
  }

  /** Contiguous labels, each new one appearing as the next integer. */
  predicate Canonical(labels: seq<int>) {
    labels == [] ||
    var rest := labels[..|labels| - 1];
    Canonical(rest) && 0 <= labels[|labels| - 1] <= NextLabel(rest)
  }

  /** Canonical labels leave no gap. */
  lemma {:induction false} CanonicalIsContiguous(labels: seq<int>, x: nat) returns (i: nat)
    requires Canonical(labels) && x < NextLabel(labels)
    ensures i < |labels| && labels[i] == x
  {
    var n := |labels| - 1;
    if x < NextLabel(labels[..n]) {
      i := CanonicalIsContiguous(labels[..n], x);
    } else {
      i := n;
    }
  }

  ghost predicate SamePartition(a: seq<int>, b: seq<int>) {
    |a| == |b| && forall i, j :: 0 <= i < |a| && 0 <= j < |a| ==> (a[i] == a[j] <==> b[i] == b[j])
  }

  /** A partition has only one canonical labelling. */
  lemma {:induction false} CanonicalIsUnique(a: seq<int>, b: seq<int>)
    requires Canonical(a) && Canonical(b) && SamePartition(a, b)
    ensures a == b
  {
    if a != [] {
      var n := |a| - 1;
      CanonicalIsUnique(a[..n], b[..n]);
      LastLabelAgrees(a, b);
      LastLabelAgrees(b, a);
      assert a == a[..n] + [a[n]] && b == b[..n] + [b[n]];
    }
  }

  lemma LastLabelAgrees(a: seq<int>, b: seq<int>)
    requires a != [] && Canonical(a) && SamePartition(a, b)
    requires a[..|a| - 1] == b[..|a| - 1]
    ensures a[|a| - 1] < NextLabel(a[..|a| - 1]) ==> a[|a| - 1] == b[|a| - 1]
  {
    var n := |a| - 1;
    if a[n] < NextLabel(a[..n]) {
      var i := CanonicalIsContiguous(a[..n], a[n]);
      assert a[i] == a[..n][i] == b[..n][i] == b[i];
    }
  }

  // ----- what clustering means -----

  /** The library's in-ball test between stored points, at a radius. */
  type Near = (nat, nat, real) -> bool

  /** The pairs of candidate positions within the tolerance of each other. */
  ghost function Links(candidates: seq<nat>, tolerance: real, near: Near): set<(nat, nat)> {
    set i: nat, j: nat | i < |candidates| && j < |candidates| && near(candidates[i], candidates[j], tolerance) :: (i, j)
  }

  /** Two candidates share a label exactly when a chain of links joins them. */
  ghost predicate IsClustering(candidates: seq<nat>, tolerance: real, near: Near, labels: seq<int>) {
    && |labels| == |candidates|
    && Canonical(labels)
    && forall i: nat, j: nat :: i < |labels| && j < |labels| ==>
         (labels[i] == labels[j] <==> Connected(Links(candidates, tolerance, near), i, j))
  }

  /** The labels are a function of the candidates alone: neighbour order does not show. */
  lemma ClusteringIsUnique(candidates: seq<nat>, tolerance: real, near: Near, a: seq<int>, b: seq<int>)
    requires IsClustering(candidates, tolerance, near, a) && IsClustering(candidates, tolerance, near, b)
    ensures a == b
  {
    CanonicalIsUnique(a, b);
  }

  // ----- the algorithm -----

  /** radiusSearch: exactly the candidates in the ball, in an arbitrary order. */
  method RadiusSearch(candidates: seq<nat>, query: nat, tolerance: real, near: Near) returns (found: seq<nat>)
    requires query < |candidates|
    ensures forall j: nat :: j in found <==> j < |candidates| && near(candidates[query], candidates[j], tolerance)
  {
    found := [];
    for j := 0 to |candidates|
      invariant forall k: nat :: k in found <==> k < j && near(candidates[query], candidates[k], tolerance)
    {
      if near(candidates[query], candidates[j], tolerance) {
        var cut: nat :| cut <= |found|;
        assert found == found[..cut] + found[cut..];
        found := found[..cut] + [j] + found[cut..];
      }
    }
  }

  /** Unites every candidate with its neighbours. */
  method UniteNeighbors(candidates: seq<nat>, tolerance: real, near: Near) returns (forest: UnionFind)
    ensures fresh(forest) && fresh(forest.parent) && fresh(forest.rank)
    ensures forest.Valid() && forest.parent.Length == |candidates|
    ensures forest.united == Links(candidates, tolerance, near)
  {
    forest := new UnionFind(|candidates|);
    for c := 0 to |candidates|
      invariant fresh(forest.parent) && fresh(forest.rank)
      invariant forest.Valid() && forest.parent.Length == |candidates|
      invariant forall i, j :: (i, j) in forest.united <==> (i, j) in Links(candidates, tolerance, near) && i < c
    {
      var neighbors := RadiusSearch(candidates, c, tolerance, near);
      for k := 0 to |neighbors|
        invariant forest.Valid()
        invariant forall i, j :: (i, j) in forest.united <==>
          (i, j) in Links(candidates, tolerance, near) && (i < c || (i == c && j in neighbors[..k]))
      {
        assert neighbors[k] in neighbors;
        assert neighbors[..k + 1] == neighbors[..k] + [neighbors[k]];
        forest.Unite(c, neighbors[k]);
      }
      assert neighbors[..|neighbors|] == neighbors;
    }
    forall e: (nat, nat)
      ensures e in forest.united <==> e in Links(candidates, tolerance, near)
    {
      assert e == (e.0, e.1);
    }
  }

  /** roots maps the roots of the candidates labelled so far to their labels, one to one. */
  ghost predicate Labelled(root: seq<nat>, labels: seq<int>, roots: map<nat, int>, next: nat) {
    && |labels| <= |root|
    && (forall i {:trigger root[i]} {:trigger labels[i]} :: 0 <= i < |labels| ==> root[i] in roots && roots[root[i]] == labels[i])
    && (forall x :: x in roots ==> 0 <= roots[x] < next)
    && (forall x, y :: x in roots && y in roots && roots[x] == roots[y] ==> x == y)
  }

  lemma CanonicalNext(labels: seq<int>, x: int)
    requires Canonical(labels) && 0 <= x <= NextLabel(labels)
    ensures Canonical(labels + [x]) && NextLabel(labels + [x]) == Max(NextLabel(labels), x + 1)
  {
    assert (labels + [x])[..|labels|] == labels;
  }

  lemma LabelledOld(root: seq<nat>, labels: seq<int>, roots: map<nat, int>, next: nat)
    requires Labelled(root, labels, roots, next) && |labels| < |root| && root[|labels|] in roots
    ensures Labelled(root, labels + [roots[root[|labels|]]], roots, next)
  {
  }

  lemma LabelledNew(root: seq<nat>, labels: seq<int>, roots: map<nat, int>, next: nat)
    requires Labelled(root, labels, roots, next) && |labels| < |root| && root[|labels|] !in roots
    ensures Labelled(root, labels + [next], roots[root[|labels|] := next], next + 1)
  {
  }

  /** The whole state of the numbering loop. */
  ghost predicate Numbered(root: seq<nat>, labels: seq<int>, roots: map<nat, int>, next: nat) {
    Labelled(root, labels, roots, next) && Canonical(labels) && next == NextLabel(labels)
  }

  /** emplace: a root seen before keeps its label, a new one gets the next. */
  method Emplace(ghost ofCandidates: seq<nat>, labels: seq<int>, roots: map<nat, int>, next: nat, root: nat)
    returns (labels': seq<int>, roots': map<nat, int>, next': nat)
    requires Numbered(ofCandidates, labels, roots, next) && |labels| < |ofCandidates| && ofCandidates[|labels|] == root
    ensures |labels'| == |labels| + 1 && Numbered(ofCandidates, labels', roots', next')
  {
    roots', next' := roots, next;
    if root in roots {
      LabelledOld(ofCandidates, labels, roots, next);
      CanonicalNext(labels, roots[root]);
    } else {
      LabelledNew(ofCandidates, labels, roots, next);
      CanonicalNext(labels, next);
      roots', next' := roots[root := next], next + 1;
    }
    labels' := labels + [roots'[root]];
  }

  ghost function Roots(p: seq<nat>, r: seq<nat>): (roots: seq<nat>)
    requires Forest(p, r)
    ensures |roots| == |p| && forall i :: 0 <= i < |p| ==> roots[i] == Root(p, r, i)
  {
    seq(|p|, i requires 0 <= i < |p| && Forest(p, r) => Root(p, r, i))
  }

  /** The final labels partition the candidates as the united pairs do. */
  lemma LabelsFollowRoots(p: seq<nat>, r: seq<nat>, edges: set<(nat, nat)>, labels: seq<int>, roots: map<nat, int>, next: nat)
    requires Forest(p, r) && Represents(p, r, edges)
    requires |labels| == |p| && Numbered(Roots(p, r), labels, roots, next)
    ensures forall i: nat, j: nat :: i < |labels| && j < |labels| ==> (labels[i] == labels[j] <==> Connected(edges, i, j))
  {
    forall i: nat, j: nat | i < |labels| && j < |labels|
      ensures labels[i] == labels[j] <==> Connected(edges, i, j)
    {
      RootsAreComponents(p, r, edges, i, j);
      assert Roots(p, r)[i] in roots && Roots(p, r)[j] in roots;
    }
  }

  /** Numbers the trees of the forest in order of first appearance. */
  method NumberTrees(forest: UnionFind) returns (labels: seq<int>)
    requires forest.Valid()
    modifies forest.parent
    ensures Canonical(labels) && |labels| == forest.parent.Length
    ensures forall i: nat, j: nat :: i < |labels| && j < |labels| ==> (labels[i] == labels[j] <==> Connected(forest.united, i, j))
  {
    ghost var p, r := forest.parent[..], forest.rank[..];
    var roots: map<nat, int> := map[];
    var next: nat := 0;
    labels := [];
    for c := 0 to forest.parent.Length
      invariant forest.Valid() && SameRoots(p, forest.parent[..], r)
      invariant |labels| == c && Numbered(Roots(p, r), labels, roots, next)
    {
      var root := forest.Find(c);
      assert root == Roots(p, r)[c];
      labels, roots, next := Emplace(Roots(p, r), labels, roots, next, root);
    }
    LabelsFollowRoots(p, r, forest.united, labels, roots, next);
  }

  /** euclidean_cluster; None is a tolerance that is not finite. */
  method EuclideanCluster(candidates: seq<nat>, tolerance: Option<real>, near: Near) returns (r: Result<seq<int>, string>)
    ensures r.Failure? <==> tolerance.None? || tolerance.value <= 0.0
    ensures r.Success? ==> IsClustering(candidates, tolerance.value, near, r.value)
  {
    if tolerance.None? || tolerance.value <= 0.0 {
      return Failure("cluster tolerance must be finite and positive");
    }
    if candidates == [] {
      return Success([]);
    }
    var forest := UniteNeighbors(candidates, tolerance.value, near);
    var labels := NumberTrees(forest);
    r := Success(labels);
  }
}
