/**
  Defect detection: candidates are clustered, small clusters dropped, the rest measured. The hash
  map that groups candidates by label is iterated in an arbitrary order.
 */
module Detection {
  import opened Basics
  import opened Surfaces
  import opened Fields
  import opened DisjointSets
  import opened Clustering
  import opened Statistics

  datatype DefectType = Dent | Bump | MissingMaterial

  /** The validated detection settings. */
  datatype Config = Config(positive: real, negative: real, tolerance: real, minPoints: nat)

  predicate ValidConfig(c: Config) {
    c.positive > 0.0 && c.negative < 0.0 && c.tolerance > 0.0 && c.minPoints > 0
  }

  datatype Cluster = Cluster(kind: DefectType, members: seq<nat>)

  // ----- candidates -----

  predicate Rising(s: seq<nat>) {
    forall i, j :: 0 <= i < j < |s| ==> s[i] < s[j]
  }

  /** The storage indices whose sample is kept, ascending. */
  function Candidates<T>(samples: seq<T>, keep: T -> bool): (c: seq<nat>)
    ensures forall i :: 0 <= i < |c| ==> c[i] < |samples| && keep(samples[c[i]])
    ensures Distinct(c) && Rising(c)
  {
    if samples == [] then []
    else
      var n := |samples| - 1;
      Candidates(samples[..n], keep) + if keep(samples[n]) then [n] else []
  }

  lemma {:induction false} CandidatesComplete<T>(samples: seq<T>, keep: T -> bool, x: nat)
    requires x < |samples| && keep(samples[x])
    ensures x in Candidates(samples, keep)
  {
    var n := |samples| - 1;
    if x < n {
      CandidatesComplete(samples[..n], keep, x);
    }
  }

  method CollectCandidates<T>(samples: seq<T>, keep: T -> bool) returns (c: seq<nat>)
    ensures c == Candidates(samples, keep)
  {
    c := [];
    for i := 0 to |samples|
      invariant c == Candidates(samples[..i], keep)
    {
      assert samples[..i + 1][..i] == samples[..i];
      if keep(samples[i]) {
        c := c + [i];
      }
    }
    assert samples[..|samples|] == samples;
  }

  // ----- components of stored points -----

  ghost function PointLinks<T>(samples: seq<T>, keep: T -> bool, tolerance: real, near: Near): set<(nat, nat)> {
    set a: nat, b: nat | a < |samples| && b < |samples| && keep(samples[a]) && keep(samples[b]) && near(a, b, tolerance) :: (a, b)
  }

  /** The kept points that a chain of links within the tolerance joins to point i. */
  ghost function Component<T>(samples: seq<T>, keep: T -> bool, tolerance: real, near: Near, i: nat): set<nat> {
    set j: nat | j < |samples| && keep(samples[j]) && Connected(PointLinks(samples, keep, tolerance, near), i, j)
  }

  /** A chain of stored points that all pass, each within the tolerance of the next one or the next one of it. */
  ghost predicate PassesAlong(n: nat, passes: nat -> bool, tolerance: real, near: Near, path: seq<nat>) {
    && path != [] && (forall k :: 0 <= k < |path| ==> path[k] < n && passes(path[k]))
    && forall k :: 0 <= k < |path| - 1 ==> near(path[k], path[k + 1], tolerance) || near(path[k + 1], path[k], tolerance)
  }

  ghost predicate Reaches(n: nat, passes: nat -> bool, tolerance: real, near: Near, i: nat, j: nat) {
    exists path :: PassesAlong(n, passes, tolerance, near, path) && path[0] == i && path[|path| - 1] == j
  }

  /** The points a chain leads to from point i. */
  ghost function Reached(n: nat, passes: nat -> bool, tolerance: real, near: Near, i: nat): set<nat> {
    set j: nat | j < n && Reaches(n, passes, tolerance, near, i, j)
  }

  lemma ChainPasses<T>(samples: seq<T>, keep: T -> bool, passes: nat -> bool, tolerance: real, near: Near, path: seq<nat>)
    requires forall x: nat :: x < |samples| ==> (passes(x) <==> keep(samples[x]))
    requires path != [] && path[0] < |samples| && keep(samples[path[0]])
    ensures IsChain(PointLinks(samples, keep, tolerance, near), path) <==> PassesAlong(|samples|, passes, tolerance, near, path)
  {
    var links := PointLinks(samples, keep, tolerance, near);
    if IsChain(links, path) {
      forall k | 0 <= k < |path|
        ensures path[k] < |samples| && passes(path[k])
      {
        assert k > 0 ==> Joined(links, path[k - 1], path[k - 1 + 1]);
      }
    }
  }

  /** The component of a kept point is what the chains of kept points lead to from it. */
  lemma ComponentIsReached<T>(samples: seq<T>, keep: T -> bool, passes: nat -> bool, tolerance: real, near: Near, i: nat)
    requires forall x: nat :: x < |samples| ==> (passes(x) <==> keep(samples[x]))
    requires i < |samples| && keep(samples[i])
    ensures Component(samples, keep, tolerance, near, i) == Reached(|samples|, passes, tolerance, near, i)
  {
    var links := PointLinks(samples, keep, tolerance, near);
    forall j: nat
      ensures j in Component(samples, keep, tolerance, near, i) <==> j in Reached(|samples|, passes, tolerance, near, i)
    {
      if Connected(links, i, j) {
        var path :| Joins(links, path, i, j);
        ChainPasses(samples, keep, passes, tolerance, near, path);
      }
      if Reaches(|samples|, passes, tolerance, near, i, j) {
        var path :| PassesAlong(|samples|, passes, tolerance, near, path) && path[0] == i && path[|path| - 1] == j;
        ChainPasses(samples, keep, passes, tolerance, near, path);
        assert Joins(links, path, i, j);
      }
    }
  }

  ghost function PositionOf(c: seq<nat>, x: nat): (p: nat)
    requires x in c
    ensures p < |c| && c[p] == x
  {
    var p :| 0 <= p < |c| && c[p] == x;
    p
  }

  lemma LinkForward<T>(samples: seq<T>, keep: T -> bool, tolerance: real, near: Near, p: nat, q: nat)
    requires var c := Candidates(samples, keep); Joined(Links(c, tolerance, near), p, q)
    ensures var c := Candidates(samples, keep);
      p < |c| && q < |c| && Joined(PointLinks(samples, keep, tolerance, near), c[p], c[q])
  {
  }

  lemma LinkBackward<T>(samples: seq<T>, keep: T -> bool, tolerance: real, near: Near, a: nat, b: nat)
    requires Joined(PointLinks(samples, keep, tolerance, near), a, b)
    ensures var c := Candidates(samples, keep);
      a in c && b in c && Joined(Links(c, tolerance, near), PositionOf(c, a), PositionOf(c, b))
  {
    CandidatesComplete(samples, keep, a);
    CandidatesComplete(samples, keep, b);
  }

  /** A chain of positions is a chain of points, and back. */
  lemma {:induction false} ChainForward<T>(samples: seq<T>, keep: T -> bool, tolerance: real, near: Near, path: seq<nat>)
    requires var c := Candidates(samples, keep);
      IsChain(Links(c, tolerance, near), path) && path[0] < |c|
    ensures var c := Candidates(samples, keep);
      path[|path| - 1] < |c| && Connected(PointLinks(samples, keep, tolerance, near), c[path[0]], c[path[|path| - 1]])
  {
    var c, links := Candidates(samples, keep), PointLinks(samples, keep, tolerance, near);
    if |path| == 1 {
      ConnectedReflexive(links, c[path[0]]);
    } else {
      var n := |path| - 1;
      ChainForward(samples, keep, tolerance, near, path[..n]);
      assert Joined(Links(c, tolerance, near), path[n - 1], path[n - 1 + 1]);
      LinkForward(samples, keep, tolerance, near, path[n - 1], path[n]);
      ConnectedPair(links, c[path[n - 1]], c[path[n]]);
      ConnectedTransitive(links, c[path[0]], c[path[n - 1]], c[path[n]]);
    }
  }

  lemma {:induction false} ChainBackward<T>(samples: seq<T>, keep: T -> bool, tolerance: real, near: Near, path: seq<nat>)
    requires var c := Candidates(samples, keep);
      IsChain(PointLinks(samples, keep, tolerance, near), path) && path[0] in c
    ensures var c := Candidates(samples, keep);
      path[|path| - 1] in c &&
      Connected(Links(c, tolerance, near), PositionOf(c, path[0]), PositionOf(c, path[|path| - 1]))
  {
    var c := Candidates(samples, keep);
    var links := Links(c, tolerance, near);
    if |path| == 1 {
      ConnectedReflexive(links, PositionOf(c, path[0]));
    } else {
      var n := |path| - 1;
      ChainBackward(samples, keep, tolerance, near, path[..n]);
      assert Joined(PointLinks(samples, keep, tolerance, near), path[n - 1], path[n - 1 + 1]);
      LinkBackward(samples, keep, tolerance, near, path[n - 1], path[n]);
      ConnectedPair(links, PositionOf(c, path[n - 1]), PositionOf(c, path[n]));
      ConnectedTransitive(links, PositionOf(c, path[0]), PositionOf(c, path[n - 1]), PositionOf(c, path[n]));
    }
  }

  /** Linked positions in the candidate list are linked points of the surface. */
  lemma PositionsArePoints<T>(samples: seq<T>, keep: T -> bool, tolerance: real, near: Near, p: nat, q: nat)
    requires var c := Candidates(samples, keep); p < |c| && q < |c|
    ensures var c := Candidates(samples, keep);
      Connected(Links(c, tolerance, near), p, q) <==> Connected(PointLinks(samples, keep, tolerance, near), c[p], c[q])
  {
    var c := Candidates(samples, keep);
    var links, points := Links(c, tolerance, near), PointLinks(samples, keep, tolerance, near);
    if Connected(links, p, q) {
      var path :| Joins(links, path, p, q);
      ChainForward(samples, keep, tolerance, near, path);
    }
    if Connected(points, c[p], c[q]) {
      var path :| Joins(points, path, c[p], c[q]);
      ChainBackward(samples, keep, tolerance, near, path);
    }
  }

  // ----- groups -----

  /** The candidates with a label, in order: one bucket of the hash map. */
  function Group(candidates: seq<nat>, labels: seq<int>, x: int): (g: seq<nat>)
    requires |labels| == |candidates|
    ensures |g| <= |candidates|
  {
    if candidates == [] then []
    else
      var n := |candidates| - 1;
      Group(candidates[..n], labels[..n], x) + if labels[n] == x then [candidates[n]] else []
  }

  lemma {:induction false} GroupMembers(candidates: seq<nat>, labels: seq<int>, x: int, m: nat)
    requires |labels| == |candidates|
    ensures m in Group(candidates, labels, x) <==> exists p :: 0 <= p < |labels| && labels[p] == x && candidates[p] == m
  {
    if candidates != [] {
      var n := |candidates| - 1;
      GroupMembers(candidates[..n], labels[..n], x, m);
      assert forall p :: 0 <= p < n ==> labels[..n][p] == labels[p] && candidates[..n][p] == candidates[p];
    }
  }

  lemma {:induction false} GroupRises(candidates: seq<nat>, labels: seq<int>, x: int)
    requires |labels| == |candidates| && Rising(candidates)
    ensures Rising(Group(candidates, labels, x))
  {
    if candidates != [] {
      var n := |candidates| - 1;
      GroupRises(candidates[..n], labels[..n], x);
      var rest := Group(candidates[..n], labels[..n], x);
      forall i | 0 <= i < |rest|
        ensures rest[i] < candidates[n]
      {
        GroupMembers(candidates[..n], labels[..n], x, rest[i]);
        assert rest[i] in rest;
      }
    }
  }

  /** A bucket lists exactly one component, in storage order. */
  lemma GroupIsComponent<T>(samples: seq<T>, keep: T -> bool, tolerance: real, near: Near, labels: seq<int>, p: nat)
    requires var c := Candidates(samples, keep); IsClustering(c, tolerance, near, labels) && p < |c|
    ensures var c := Candidates(samples, keep);
      var g := Group(c, labels, labels[p]);
      Rising(g) && Elements(g) == Component(samples, keep, tolerance, near, c[p]) && |g| == |Component(samples, keep, tolerance, near, c[p])|
  {
    var c := Candidates(samples, keep);
    var g, component := Group(c, labels, labels[p]), Component(samples, keep, tolerance, near, c[p]);
    forall m: nat
      ensures m in g <==> m in component
    {
      GroupMembers(c, labels, labels[p], m);
      if m in g {
        var q :| 0 <= q < |c| && labels[q] == labels[p] && c[q] == m;
        PositionsArePoints(samples, keep, tolerance, near, p, q);
      }
      if m in component {
        CandidatesComplete(samples, keep, m);
        PositionsArePoints(samples, keep, tolerance, near, p, PositionOf(c, m));
      }
    }
    assert Elements(g) == component;
    GroupRises(c, labels, labels[p]);
    DistinctSize(g);
  }

  /** unordered_map<label, indices>. */
  method GroupByLabel(candidates: seq<nat>, labels: seq<int>) returns (groups: map<int, seq<nat>>)
    requires |labels| == |candidates|
    ensures forall x :: x in groups <==> x in labels
    ensures forall x :: x in groups ==> groups[x] == Group(candidates, labels, x)
  {
    groups := map[];
    for i := 0 to |candidates|
      invariant forall x :: x in groups <==> x in labels[..i]
      invariant forall x {:trigger Group(candidates[..i], labels[..i], x)} ::
        Group(candidates[..i], labels[..i], x) == if x in groups then groups[x] else []
    {
      assert candidates[..i + 1][..i] == candidates[..i] && labels[..i + 1][..i] == labels[..i];
      assert labels[..i + 1] == labels[..i] + [labels[i]];
      var before := if labels[i] in groups then groups[labels[i]] else [];
      assert before == Group(candidates[..i], labels[..i], labels[i]);
      groups := groups[labels[i] := before + [candidates[i]]];
    }
    assert candidates[..|candidates|] == candidates && labels[..|labels|] == labels;
    assert forall x :: Group(candidates[..|candidates|], labels[..|labels|], x) == Group(candidates, labels, x);
  }

  /** The labels of the buckets that are large enough, in the order the hash map delivered them. */
  ghost predicate IsSelection(candidates: seq<nat>, labels: seq<int>, minPoints: nat, order: seq<int>)
    requires |labels| == |candidates|
  {
    Distinct(order) && forall x {:trigger x in order} :: x in order <==> x in labels && |Group(candidates, labels, x)| >= minPoints
  }

  function ClusterOf(kind: DefectType, candidates: seq<nat>, labels: seq<int>): int -> Cluster {
    (x: int) => Cluster(kind, if |labels| == |candidates| then Group(candidates, labels, x) else [])
  }

  /** Whatever element the hash map delivers next. */
  method Pick(s: set<int>) returns (x: int)
    requires s != {}
    ensures x in s
  {
    assert (forall y: int :: y !in s) ==> s == {};
    x :| x in s;
  }

  /** Drops the small buckets. */
  method SelectClusters(kind: DefectType, ghost candidates: seq<nat>, ghost labels: seq<int>,
                        groups: map<int, seq<nat>>, minPoints: nat)
    returns (clusters: seq<Cluster>, ghost order: seq<int>)
    requires |labels| == |candidates|
    requires forall x :: x in groups <==> x in labels
    requires forall x :: x in groups ==> groups[x] == Group(candidates, labels, x)
    ensures IsSelection(candidates, labels, minPoints, order)
    ensures clusters == Map(ClusterOf(kind, candidates, labels), order)
  {
    clusters, order := [], [];
    var remaining: set<int> := groups.Keys;
    while remaining != {}
      invariant remaining <= groups.Keys && Distinct(order)
      invariant forall x {:trigger x in order} :: x in order <==> x in labels && x !in remaining && |Group(candidates, labels, x)| >= minPoints
      invariant clusters == Map(ClusterOf(kind, candidates, labels), order)
      decreases remaining
    {
      var x := Pick(remaining);
      assert x !in order;
      remaining := remaining - {x};
      if |groups[x]| >= minPoints {
        assert (order + [x])[..|order|] == order;
        clusters, order := clusters + [Cluster(kind, groups[x])], order + [x];
      }
    }
  }

  /** The clusters of one class of candidates: every large enough component, in some order. */
  ghost predicate IsClusters<T>(samples: seq<T>, keep: T -> bool, kind: DefectType, config: Config, near: Near, clusters: seq<Cluster>) {
    var c := Candidates(samples, keep);
    exists labels: seq<int>, order: seq<int> ::
      && IsClustering(c, config.tolerance, near, labels)
      && IsSelection(c, labels, config.minPoints, order)
      && clusters == Map(ClusterOf(kind, c, labels), order)
  }

  /** cluster_class and cluster_missing_material for one class of candidates. */
  method FindClusters<T>(samples: seq<T>, keep: T -> bool, kind: DefectType, config: Config, near: Near)
    returns (r: Result<seq<Cluster>, string>)
    ensures r.Failure? <==> Candidates(samples, keep) != [] && config.tolerance <= 0.0
    ensures r.Success? ==> IsClusters(samples, keep, kind, config, near, r.value)
  {
    var candidates := CollectCandidates(samples, keep);
    if candidates == [] {
      assert IsClustering(candidates, config.tolerance, near, []) && IsSelection(candidates, [], config.minPoints, []);
      assert Map(ClusterOf(kind, candidates, []), []) == [];
      return Success([]);
    }
    var labels := EuclideanCluster(candidates, Some(config.tolerance), near);
    if labels.Failure? {
      return Failure(labels.error);
    }
    var groups := GroupByLabel(candidates, labels.value);
    var clusters, order := SelectClusters(kind, candidates, labels.value, groups, config.minPoints);
    r := Success(clusters);
  }

  function IsBump(config: Config): DeviationSample -> bool {
    (s: DeviationSample) => s.reason == Trusted && s.signed > config.positive
  }

  function IsDent(config: Config): DeviationSample -> bool {
    (s: DeviationSample) => s.reason == Trusted && s.signed < config.negative
  }

  function IsMissing(): CoverageSample -> bool {
    (s: CoverageSample) => s.reason == Uncovered
  }

  datatype DetectionError = SurfaceNotMillimeters | FieldLayout | Unclustered(reason: string)

  ghost predicate IsDeviationClusters(samples: seq<DeviationSample>, config: Config, near: Near, clusters: seq<Cluster>) {
    exists bumps, dents ::
      && IsClusters(samples, IsBump(config), Bump, config, near, bumps)
      && IsClusters(samples, IsDent(config), Dent, config, near, dents)
      && clusters == bumps + dents
  }

  /** cluster_deviation_defects: bumps, then dents. */
  method ClusterDeviations<P>(scan: Surface<P>, unit: LengthUnit, samples: seq<DeviationSample>, config: Config, near: Near)
    returns (r: Result<seq<Cluster>, DetectionError>)
    ensures !unit.Millimeter? <==> r == Failure(SurfaceNotMillimeters)
    ensures unit.Millimeter? && |samples| != |scan.points| <==> r == Failure(FieldLayout)
    ensures unit.Millimeter? && |samples| == |scan.points| ==>
      (r.Failure? <==> config.tolerance <= 0.0 && (Candidates(samples, IsBump(config)) != [] || Candidates(samples, IsDent(config)) != []))
    ensures r.Success? ==> IsDeviationClusters(samples, config, near, r.value)
  {
    if !unit.Millimeter? {
      return Failure(SurfaceNotMillimeters);
    }
    if |samples| != |scan.points| {
      return Failure(FieldLayout);
    }
    var bumps := FindClusters(samples, IsBump(config), Bump, config, near);
    if bumps.Failure? {
      return Failure(Unclustered(bumps.error));
    }
    var dents := FindClusters(samples, IsDent(config), Dent, config, near);
    if dents.Failure? {
      return Failure(Unclustered(dents.error));
    }
    r := Success(bumps.value + dents.value);
  }

  /** cluster_missing_material. */
  method ClusterMissing<P>(reference: Surface<P>, unit: LengthUnit, samples: seq<CoverageSample>, config: Config, near: Near)
    returns (r: Result<seq<Cluster>, DetectionError>)
    ensures !unit.Millimeter? <==> r == Failure(SurfaceNotMillimeters)
    ensures unit.Millimeter? && |samples| != |reference.points| <==> r == Failure(FieldLayout)
    ensures unit.Millimeter? && |samples| == |reference.points| ==>
      (r.Failure? <==> config.tolerance <= 0.0 && Candidates(samples, IsMissing()) != [])
    ensures r.Success? ==> IsClusters(samples, IsMissing(), MissingMaterial, config, near, r.value)
  {
    if !unit.Millimeter? {
      return Failure(SurfaceNotMillimeters);
    }
    if |samples| != |reference.points| {
      return Failure(FieldLayout);
    }
    var missing := FindClusters(samples, IsMissing(), MissingMaterial, config, near);
    if missing.Failure? {
      return Failure(Unclustered(missing.error));
    }
    r := Success(missing.value);
  }

  ghost predicate Within(a: seq<int>, b: seq<int>) {
    forall i :: 0 <= i < |a| ==> a[i] in b
  }

  lemma NotWithinEmpty(b: seq<int>)
    requires b != []
    ensures !Within(b, [])
  {
    assert b[0] !in [];
  }

  lemma {:induction false} SameOrderElements(a: seq<int>, b: seq<int>)
    requires Distinct(a) && Distinct(b) && Within(a, b) && Within(b, a)
    ensures multiset(a) == multiset(b)
    decreases |a|
  {
    if a == [] {
      assert b == [] by {
        if b != [] {
          NotWithinEmpty(b);
        }
      }
    } else {
      assert a[0] in b;
      var j :| 0 <= j < |b| && b[j] == a[0];
      WithinWithoutOne(a, 0, b, j);
      WithinWithoutOne(b, j, a, 0);
      assert |Without(a, 0)| == |a| - 1;
      SameOrderElements(Without(a, 0), Without(b, j));
      PutBack(a, b, j);
    }
  }

  lemma PutBack(a: seq<int>, b: seq<int>, j: nat)
    requires a != [] && j < |b| && b[j] == a[0] && multiset(Without(a, 0)) == multiset(Without(b, j))
    ensures multiset(a) == multiset(b)
  {
    MultisetRemove(a, 0);
    MultisetRemove(b, j);
    RestoreOne(multiset(a), multiset(b), a[0]);
  }

  lemma WithinWithoutOne(a: seq<int>, i: nat, b: seq<int>, j: nat)
    requires Distinct(a) && i < |a| && j < |b| && a[i] == b[j] && Within(a, b)
    ensures Distinct(Without(a, i)) && Within(Without(a, i), Without(b, j))
  {
    var s, t := Without(a, i), Without(b, j);
    forall k | 0 <= k < |s|
      ensures s[k] in t
    {
      var from := if k < i then k else k + 1;
      assert s[k] == a[from] && a[from] in b;
      var q :| 0 <= q < |b| && b[q] == a[from];
      assert t[if q < j then q else q - 1] == b[q];
    }
  }

  /** The hash map's order only permutes the clusters. */
  lemma ClustersPermuted<T>(samples: seq<T>, keep: T -> bool, kind: DefectType, config: Config, near: Near,
                            a: seq<Cluster>, b: seq<Cluster>)
    requires IsClusters(samples, keep, kind, config, near, a) && IsClusters(samples, keep, kind, config, near, b)
    ensures multiset(a) == multiset(b)
  {
    var c := Candidates(samples, keep);
    var l1: seq<int>, o1: seq<int> :| IsClustering(c, config.tolerance, near, l1) && IsSelection(c, l1, config.minPoints, o1)
      && a == Map(ClusterOf(kind, c, l1), o1);
    var l2: seq<int>, o2: seq<int> :| IsClustering(c, config.tolerance, near, l2) && IsSelection(c, l2, config.minPoints, o2)
      && b == Map(ClusterOf(kind, c, l2), o2);
    ClusteringIsUnique(c, config.tolerance, near, l1, l2);
    assert forall i :: 0 <= i < |o1| ==> o1[i] in o1;
    assert forall i :: 0 <= i < |o2| ==> o2[i] in o2;
    SameOrderElements(o1, o2);
    MapPermuted(ClusterOf(kind, c, l1), o1, o2);
  }

  // ----- clusters and components -----

  /** Point i belongs to a component of at least the configured size. */
  ghost predicate LargeComponent<T>(samples: seq<T>, keep: T -> bool, config: Config, near: Near, i: nat) {
    i < |samples| && keep(samples[i]) && |Component(samples, keep, config.tolerance, near, i)| >= config.minPoints
  }

  lemma SelectedIsLarge<T>(samples: seq<T>, keep: T -> bool, config: Config, near: Near,
                           labels: seq<int>, order: seq<int>, x: int) returns (i: nat)
    requires var c := Candidates(samples, keep);
      IsClustering(c, config.tolerance, near, labels) && IsSelection(c, labels, config.minPoints, order) && x in order
    ensures LargeComponent(samples, keep, config, near, i) && Rising(Group(Candidates(samples, keep), labels, x))
    ensures Elements(Group(Candidates(samples, keep), labels, x)) == Component(samples, keep, config.tolerance, near, i)
  {
    var c := Candidates(samples, keep);
    var p :| 0 <= p < |labels| && labels[p] == x;
    GroupIsComponent(samples, keep, config.tolerance, near, labels, p);
    i := c[p];
  }

  lemma LargeIsSelected<T>(samples: seq<T>, keep: T -> bool, config: Config, near: Near,
                           labels: seq<int>, order: seq<int>, i: nat) returns (x: int)
    requires var c := Candidates(samples, keep);
      IsClustering(c, config.tolerance, near, labels) && IsSelection(c, labels, config.minPoints, order)
    requires LargeComponent(samples, keep, config, near, i)
    ensures x in order && Rising(Group(Candidates(samples, keep), labels, x))
    ensures Elements(Group(Candidates(samples, keep), labels, x)) == Component(samples, keep, config.tolerance, near, i)
  {
    CandidatesComplete(samples, keep, i);
    var p := PositionOf(Candidates(samples, keep), i);
    GroupIsComponent(samples, keep, config.tolerance, near, labels, p);
    x := labels[p];
    assert x in labels;
  }

  /** The members are those of the large component of point i. */
  ghost predicate Fills<T>(samples: seq<T>, keep: T -> bool, config: Config, near: Near, members: seq<nat>, i: nat) {
    LargeComponent(samples, keep, config, near, i) && Elements(members) == Component(samples, keep, config.tolerance, near, i)
  }

  ghost predicate ProperCluster<T>(samples: seq<T>, keep: T -> bool, kind: DefectType, config: Config, near: Near, cluster: Cluster, i: nat) {
    cluster.kind == kind && |cluster.members| >= config.minPoints && Rising(cluster.members) && Fills(samples, keep, config, near, cluster.members, i)
  }

  ghost predicate IsProper<T>(samples: seq<T>, keep: T -> bool, kind: DefectType, config: Config, near: Near, cluster: Cluster) {
    exists i :: ProperCluster(samples, keep, kind, config, near, cluster, i)
  }

  /** Every cluster is a large component. */
  ghost predicate OnlyComponents<T>(samples: seq<T>, keep: T -> bool, kind: DefectType, config: Config, near: Near, clusters: seq<Cluster>) {
    forall k :: 0 <= k < |clusters| ==> IsProper(samples, keep, kind, config, near, clusters[k])
  }

  /** Every large component is a cluster. */
  ghost predicate AllComponents<T>(samples: seq<T>, keep: T -> bool, kind: DefectType, config: Config, near: Near, clusters: seq<Cluster>) {
    forall i :: LargeComponent(samples, keep, config, near, i) ==>
      exists k :: 0 <= k < |clusters| && ProperCluster(samples, keep, kind, config, near, clusters[k], i)
  }

  lemma ClusterIsComponent<T>(samples: seq<T>, keep: T -> bool, kind: DefectType, config: Config, near: Near,
                              labels: seq<int>, order: seq<int>, k: nat) returns (i: nat)
    requires var c := Candidates(samples, keep);
      IsClustering(c, config.tolerance, near, labels) && IsSelection(c, labels, config.minPoints, order)
    requires k < |order|
    ensures ProperCluster(samples, keep, kind, config, near, ClusterOf(kind, Candidates(samples, keep), labels)(order[k]), i)
  {
    assert order[k] in order;
    i := SelectedIsLarge(samples, keep, config, near, labels, order, order[k]);
  }

  lemma ComponentIsCluster<T>(samples: seq<T>, keep: T -> bool, kind: DefectType, config: Config, near: Near,
                              labels: seq<int>, order: seq<int>, i: nat) returns (k: nat)
    requires var c := Candidates(samples, keep);
      IsClustering(c, config.tolerance, near, labels) && IsSelection(c, labels, config.minPoints, order)
    requires LargeComponent(samples, keep, config, near, i)
    ensures k < |order|
    ensures ProperCluster(samples, keep, kind, config, near, ClusterOf(kind, Candidates(samples, keep), labels)(order[k]), i)
  {
    var x := LargeIsSelected(samples, keep, config, near, labels, order, i);
    k :| k < |order| && order[k] == x;
  }

  /** The clusters are large components, and nothing else. */
  lemma ClustersOnlyComponents<T>(samples: seq<T>, keep: T -> bool, kind: DefectType, config: Config, near: Near, clusters: seq<Cluster>)
    requires IsClusters(samples, keep, kind, config, near, clusters)
    ensures OnlyComponents(samples, keep, kind, config, near, clusters)
  {
    var c := Candidates(samples, keep);
    var labels: seq<int>, order: seq<int> :| IsClustering(c, config.tolerance, near, labels)
      && IsSelection(c, labels, config.minPoints, order) && clusters == Map(ClusterOf(kind, c, labels), order);
    forall k | 0 <= k < |clusters|
      ensures IsProper(samples, keep, kind, config, near, clusters[k])
    {
      var i := ClusterIsComponent(samples, keep, kind, config, near, labels, order, k);
    }
  }

  /** No large component is left out. */
  lemma ClustersAllComponents<T>(samples: seq<T>, keep: T -> bool, kind: DefectType, config: Config, near: Near, clusters: seq<Cluster>)
    requires IsClusters(samples, keep, kind, config, near, clusters)
    ensures AllComponents(samples, keep, kind, config, near, clusters)
  {
    var c := Candidates(samples, keep);
    var labels: seq<int>, order: seq<int> :| IsClustering(c, config.tolerance, near, labels)
      && IsSelection(c, labels, config.minPoints, order) && clusters == Map(ClusterOf(kind, c, labels), order);
    forall i | LargeComponent(samples, keep, config, near, i)
      ensures exists k :: 0 <= k < |clusters| && ProperCluster(samples, keep, kind, config, near, clusters[k], i)
    {
      var k := ComponentIsCluster(samples, keep, kind, config, near, labels, order, i);
      assert ProperCluster(samples, keep, kind, config, near, clusters[k], i);
    }
  }

  /** A member of a cluster is a kept point of its component, and the other way round. */
  lemma FilledBy<T>(samples: seq<T>, keep: T -> bool, config: Config, near: Near, members: seq<nat>, i: nat, m: nat)
    requires Fills(samples, keep, config, near, members, i)
    ensures m in members <==> m in Component(samples, keep, config.tolerance, near, i)
    ensures m in members ==> m < |samples| && keep(samples[m])
  {
    assert m in members <==> m in Elements(members);
  }

  // ----- measurement -----

  datatype Severity = Info | Warning | Reject

  datatype Region = Region(id: nat, kind: DefectType, pointCount: nat, summary: Summary, severity: Severity)

  /** Twice the larger threshold. */
  function RejectLimit(config: Config): real {
    2.0 * (if config.positive < -config.negative then -config.negative else config.positive)
  }

  function DefaultSeverity(kind: DefectType, maxAbs: real, config: Config): Severity {
    if kind.MissingMaterial? then Reject else if maxAbs >= RejectLimit(config) then Reject else Warning
  }

  /** The signed deviations of a cluster's members. */
  function SignedOf(samples: seq<DeviationSample>, members: seq<nat>): (values: seq<real>)
    ensures |values| == |members|
  {
    seq(|members|, i requires 0 <= i < |members| => if members[i] < |samples| then samples[members[i]].signed else 0.0)
  }

  /** The report of a cluster; only a deviation field yields a summary. */
  ghost function RegionOf(field: Option<seq<DeviationSample>>, config: Config, root: real -> real, cluster: Cluster, id: nat): Region {
    var summary := if field.Some? then SummaryOf(SignedOf(field.value, cluster.members), root) else SummaryOf([], root);
    Region(id, cluster.kind, |cluster.members|, summary, DefaultSeverity(cluster.kind, summary.maxAbs, config))
  }

  datatype RegionError = SurfaceUnit | FieldSize | InvalidIndex

  ghost predicate Measurable<P>(surface: Surface<P>, unit: LengthUnit, field: Option<seq<DeviationSample>>, cluster: Cluster)
    requires WellFormed(surface)
  {
    && unit.Millimeter?
    && (field.Some? ==> |field.value| == |surface.points|)
    && forall i :: 0 <= i < |cluster.members| ==> cluster.members[i] < |surface.points| && ValidAt(surface, cluster.members[i])
  }

  /** collect_samples and build_region. */
  method MeasureRegion<P>(cluster: Cluster, surface: Surface<P>, unit: LengthUnit, field: Option<seq<DeviationSample>>,
                          config: Config, root: real -> real, id: nat) returns (r: Result<Region, RegionError>)
    requires WellFormed(surface)
    ensures r.Success? <==> Measurable(surface, unit, field, cluster)
    ensures r.Success? ==> r.value == RegionOf(field, config, root, cluster, id)
  {
    if !unit.Millimeter? { return Failure(SurfaceUnit); }
    if field.Some? && |field.value| != |surface.points| { return Failure(FieldSize); }
    var values := [];
    for i := 0 to |cluster.members|
      invariant forall k :: 0 <= k < i ==> cluster.members[k] < |surface.points| && ValidAt(surface, cluster.members[k])
      invariant field.Some? ==> values == SignedOf(field.value, cluster.members[..i])
    {
      var index := cluster.members[i];
      if index >= |surface.points| || !ValidAt(surface, index) { return Failure(InvalidIndex); }
      if field.Some? {
        values := values + [field.value[index].signed];
      }
    }
    assert cluster.members[..|cluster.members|] == cluster.members;
    var measured := if field.Some? then values else [];
    var summary := Describe(measured, root);
    r := Success(Region(id, cluster.kind, |cluster.members|, summary, DefaultSeverity(cluster.kind, summary.maxAbs, config)));
  }

  /** Regions of consecutive ids for a list of clusters. */
  ghost function RegionsOf(field: Option<seq<DeviationSample>>, config: Config, root: real -> real,
                           clusters: seq<Cluster>, firstId: nat): (regions: seq<Region>)
    ensures |regions| == |clusters| && forall i :: 0 <= i < |regions| ==> regions[i].id == firstId + i
  {
    seq(|clusters|, i requires 0 <= i < |clusters| => RegionOf(field, config, root, clusters[i], firstId + i))
  }

  ghost predicate AnyReject(regions: seq<Region>) {
    exists i :: 0 <= i < |regions| && regions[i].severity.Reject?
  }

  lemma RejectsGrow(regions: seq<Region>, region: Region)
    ensures AnyReject(regions + [region]) <==> AnyReject(regions) || region.severity.Reject?
  {
    var more := regions + [region];
    assert more[|regions|] == region && forall k :: 0 <= k < |regions| ==> more[k] == regions[k];
  }

  lemma RegionsGrow(field: Option<seq<DeviationSample>>, config: Config, root: real -> real, clusters: seq<Cluster>, firstId: nat, i: nat)
    requires i < |clusters|
    ensures var before, region := RegionsOf(field, config, root, clusters[..i], firstId), RegionOf(field, config, root, clusters[i], firstId + i);
      && RegionsOf(field, config, root, clusters[..i + 1], firstId) == before + [region]
      && (AnyReject(before + [region]) <==> AnyReject(before) || region.severity.Reject?)
  {
    RejectsGrow(RegionsOf(field, config, root, clusters[..i], firstId), RegionOf(field, config, root, clusters[i], firstId + i));
  }

  /** One of the two measuring loops of the detection stage. */
  method MeasureAll<P>(clusters: seq<Cluster>, surface: Surface<P>, unit: LengthUnit, field: Option<seq<DeviationSample>>,
                       config: Config, root: real -> real, firstId: nat)
    returns (r: Result<seq<Region>, RegionError>, hasReject: bool)
    requires WellFormed(surface)
    ensures r.Success? <==> forall i :: 0 <= i < |clusters| ==> Measurable(surface, unit, field, clusters[i])
    ensures r.Success? ==> r.value == RegionsOf(field, config, root, clusters, firstId) && (hasReject <==> AnyReject(r.value))
  {
    var regions: seq<Region> := [];
    hasReject := false;
    for i := 0 to |clusters|
      invariant forall k :: 0 <= k < i ==> Measurable(surface, unit, field, clusters[k])
      invariant regions == RegionsOf(field, config, root, clusters[..i], firstId)
      invariant hasReject <==> AnyReject(regions)
    {
      var region := MeasureRegion(clusters[i], surface, unit, field, config, root, firstId + i);
      if region.Failure? { return Failure(region.error), false; }
      RegionsGrow(field, config, root, clusters, firstId, i);
      hasReject := hasReject || region.value.severity.Reject?;
      regions := regions + [region.value];
    }
    assert clusters[..|clusters|] == clusters;
    r := Success(regions);
  }
}
