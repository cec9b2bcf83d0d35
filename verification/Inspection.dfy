/**
  The decision part of src/pipeline/inspection_pipeline.cpp, from the registration gate to the
  verdict, and what the verdict means in terms of the two surfaces.
 */
module Inspection {
  import opened Basics
  import opened Surfaces
  import opened Fields
  import opened Clustering
  import opened Statistics
  import opened Detection

  /** What run_impl has in hand once the scan is aligned, and the libraries' answers about it. */
  datatype Scene<P> = Scene(
    reference: Surface<P>, referenceBoundary: seq<nat>,
    scan: Surface<P>, scanBoundary: seq<nat>,
    geometry: Geometry,
    nearestReference: nat -> Option<Hit>,   // nearest search on the reference, by scan point
    nearestScan: nat -> Option<Hit>,        // nearest search on the scan, by reference point
    nearScan: Near, nearReference: Near,    // in-ball tests of the clustering
    searchLimit: real, minCoverage: real, config: Config, threads: nat)

  ghost predicate Ready<P>(s: Scene<P>) {
    WellFormed(s.reference) && WellFormed(s.scan) && ValidConfig(s.config)
  }

  /** The inputs the comparison stage accepts. */
  ghost predicate Comparable<P>(s: Scene<P>)
    requires Ready(s)
  {
    && s.reference.normals != []
    && (s.referenceBoundary == [] || |s.referenceBoundary| == |s.reference.points|)
    && (s.scanBoundary == [] || |s.scanBoundary| == |s.scan.points|)
    && (s.threads > 0 || (ValidIndices(s.reference, Logical(s.reference)) == [] && ValidIndices(s.scan, Logical(s.scan)) == []))
  }

  /** The inputs the deviation field accepts. */
  ghost predicate DeviationComparable<P>(s: Scene<P>)
    requires Ready(s)
  {
    && s.reference.normals != []
    && (s.referenceBoundary == [] || |s.referenceBoundary| == |s.reference.points|)
    && (s.threads > 0 || ValidIndices(s.reference, Logical(s.reference)) == [])
  }

  /** How the comparison of a scene that is not comparable fails: the deviation field comes first. */
  ghost function SceneFault<P>(s: Scene<P>): ComparisonError
    requires Ready(s)
  {
    if !DeviationComparable(s) then DeviationFault(s.reference, Millimeter, s.referenceBoundary, Millimeter)
    else CoverageFault(Millimeter, s.scan, Millimeter, s.scanBoundary)
  }

  /** Which complaint comes first: normals, the reference's marks and the search of the deviation field, then the scan's
      marks and the search of the coverage field. */
  lemma SceneFaultMeans<P>(s: Scene<P>)
    requires Ready(s) && !Comparable(s)
    ensures var e, normals := SceneFault(s), |s.reference.normals| > 0;
      var referenceMarks := |s.referenceBoundary| == 0 || |s.referenceBoundary| == |s.reference.points|;
      var scanMarks := |s.scanBoundary| == 0 || |s.scanBoundary| == |s.scan.points|;
      var searchReference := s.threads > 0 || ValidIndices(s.reference, Logical(s.reference)) == [];
      && (e == NormalsRequired <==> !normals)
      && (e == BoundarySize <==> normals && (!referenceMarks || (searchReference && !scanMarks)))
      && (e == SearchFailed <==> normals && referenceMarks && (!searchReference || scanMarks))
  {
  }

  ghost function Deviations<P>(s: Scene<P>, root: real -> real): (samples: seq<DeviationSample>)
    requires Ready(s)
    ensures |samples| == |s.scan.points|
  {
    Scatter(s.scan, DeviationAt(s.scan, s.referenceBoundary, s.geometry,
                                NearestTo(s.reference, s.scan, s.nearestReference, s.searchLimit, root)), UNSET)
  }

  ghost function Coverage<P>(s: Scene<P>, root: real -> real): (samples: seq<CoverageSample>)
    requires Ready(s)
    ensures |samples| == |s.reference.points|
  {
    Scatter(s.reference, CoverageAt(s.reference, s.scanBoundary,
                                    NearestTo(s.scan, s.reference, s.nearestScan, s.searchLimit, root)), UNSEEN)
  }

  // ----- what makes a part fail -----

  /** At least twice either threshold. */
  predicate Extreme(config: Config, signed: real) {
    Abs(signed) >= 2.0 * config.positive && Abs(signed) >= -2.0 * config.negative
  }

  /** Point i's component is large and holds an extreme point. */
  ghost predicate Severe(samples: seq<DeviationSample>, keep: DeviationSample -> bool, config: Config, near: Near, i: nat) {
    && LargeComponent(samples, keep, config, near, i)
    && exists j :: j in Component(samples, keep, config.tolerance, near, i) && Extreme(config, samples[j].signed)
  }

  /** A large component with a point whose deviation is extreme. */
  ghost predicate SevereDeviation(samples: seq<DeviationSample>, keep: DeviationSample -> bool, config: Config, near: Near) {
    exists i :: Severe(samples, keep, config, near, i)
  }

  ghost predicate LargeGap(samples: seq<CoverageSample>, config: Config, near: Near) {
    exists i :: LargeComponent(samples, IsMissing(), config, near, i)
  }

  /** The part is to be rejected. */
  ghost predicate Defective<P>(s: Scene<P>, root: real -> real)
    requires Ready(s)
  {
    || SevereDeviation(Deviations(s, root), IsBump(s.config), s.config, s.nearScan)
    || SevereDeviation(Deviations(s, root), IsDent(s.config), s.config, s.nearScan)
    || LargeGap(Coverage(s, root), s.config, s.nearReference)
  }

  /** A measured deviation cluster is rejected exactly when one of its points deviates by at least twice either
      threshold. */
  lemma SeverityIsPeak(samples: seq<DeviationSample>, config: Config, root: real -> real, cluster: Cluster, id: nat)
    requires !cluster.kind.MissingMaterial? && cluster.members != []
    requires forall m :: m in cluster.members ==> m < |samples|
    ensures RegionOf(Some(samples), config, root, cluster, id).severity.Reject? <==>
      exists m :: m in cluster.members && Abs(samples[m].signed) >= 2.0 * config.positive && Abs(samples[m].signed) >= -2.0 * config.negative
  {
    var values := SignedOf(samples, cluster.members);
    var at := PeakIsMax(values);
    assert cluster.members[at] in cluster.members && values[at] == samples[cluster.members[at]].signed;
    forall m | m in cluster.members
      ensures Abs(samples[m].signed) <= Peak(values)
    {
      var k :| 0 <= k < |cluster.members| && cluster.members[k] == m;
      assert Abs(values[k]) <= Peak(values);
    }
  }

  /** What is reported of a cluster: the summary of its members' signed deviations, in their order, and a warning unless it
      is rejected; of missing material nothing is summarized, and it is always rejected. */
  lemma RegionMeans(samples: seq<DeviationSample>, config: Config, root: real -> real, cluster: Cluster, id: nat, values: seq<real>)
    requires |values| == |cluster.members| > 0
    requires forall i :: 0 <= i < |values| ==> cluster.members[i] < |samples| && values[i] == samples[cluster.members[i]].signed
    ensures var r := RegionOf(Some(samples), config, root, cluster, id);
      && r.id == id && r.kind == cluster.kind && r.pointCount == |cluster.members| && r.summary == SummaryOf(values, root)
      && (r.severity == Reject <==>
            || cluster.kind == MissingMaterial
            || exists i :: 0 <= i < |values| && Abs(values[i]) >= 2.0 * config.positive && Abs(values[i]) >= -2.0 * config.negative)
      && (r.severity != Reject ==> r.severity == Warning)
    ensures var r := RegionOf(None, config, root, cluster, id);
      && r.id == id && r.kind == cluster.kind && r.pointCount == |cluster.members| && r.summary == Summary(0.0, 0.0, 0.0, 0.0)
      && (cluster.kind == MissingMaterial ==> r.severity == Reject)
  {
    assert SignedOf(samples, cluster.members) == values;
    if cluster.kind != MissingMaterial {
      SeverityIsPeak(samples, config, root, cluster, id);
      forall i | 0 <= i < |values|
        ensures cluster.members[i] in cluster.members
      {
      }
    }
  }

  /** A rejected region comes from a severe component. */
  lemma RejectIsSevere(samples: seq<DeviationSample>, keep: DeviationSample -> bool, config: Config, near: Near, root: real -> real,
                       cluster: Cluster, i: nat, id: nat)
    requires !cluster.kind.MissingMaterial? && cluster.members != [] && Fills(samples, keep, config, near, cluster.members, i)
    ensures RegionOf(Some(samples), config, root, cluster, id).severity.Reject? <==>
      exists j :: j in Component(samples, keep, config.tolerance, near, i) && Extreme(config, samples[j].signed)
  {
    forall m: nat
      ensures m in cluster.members <==> m in Component(samples, keep, config.tolerance, near, i)
      ensures m in cluster.members ==> m < |samples|
    {
      FilledBy(samples, keep, config, near, cluster.members, i, m);
    }
    SeverityIsPeak(samples, config, root, cluster, id);
  }

  lemma ProperReject(samples: seq<DeviationSample>, keep: DeviationSample -> bool, kind: DefectType, config: Config,
                     near: Near, root: real -> real, cluster: Cluster, id: nat)
    requires ValidConfig(config) && !kind.MissingMaterial? && IsProper(samples, keep, kind, config, near, cluster)
    requires RegionOf(Some(samples), config, root, cluster, id).severity.Reject?
    ensures SevereDeviation(samples, keep, config, near)
  {
    var i :| ProperCluster(samples, keep, kind, config, near, cluster, i);
    RejectIsSevere(samples, keep, config, near, root, cluster, i, id);
    assert Severe(samples, keep, config, near, i);
  }

  lemma RejectedAt(field: Option<seq<DeviationSample>>, config: Config, root: real -> real, clusters: seq<Cluster>, firstId: nat)
    returns (k: nat)
    requires AnyReject(RegionsOf(field, config, root, clusters, firstId))
    ensures k < |clusters| && RegionOf(field, config, root, clusters[k], firstId + k).severity.Reject?
  {
    var regions := RegionsOf(field, config, root, clusters, firstId);
    k :| 0 <= k < |regions| && regions[k].severity.Reject?;
  }

  lemma RejectedCluster(samples: seq<DeviationSample>, keep: DeviationSample -> bool, kind: DefectType, config: Config,
                        near: Near, root: real -> real, clusters: seq<Cluster>, firstId: nat)
    requires ValidConfig(config) && !kind.MissingMaterial? && OnlyComponents(samples, keep, kind, config, near, clusters)
    requires AnyReject(RegionsOf(Some(samples), config, root, clusters, firstId))
    ensures SevereDeviation(samples, keep, config, near)
  {
    var k := RejectedAt(Some(samples), config, root, clusters, firstId);
    ProperReject(samples, keep, kind, config, near, root, clusters[k], firstId + k);
  }

  lemma SevereComponent(samples: seq<DeviationSample>, keep: DeviationSample -> bool, kind: DefectType, config: Config,
                        near: Near, root: real -> real, clusters: seq<Cluster>, firstId: nat)
    requires ValidConfig(config) && !kind.MissingMaterial? && AllComponents(samples, keep, kind, config, near, clusters)
    requires SevereDeviation(samples, keep, config, near)
    ensures AnyReject(RegionsOf(Some(samples), config, root, clusters, firstId))
  {
    var i :| Severe(samples, keep, config, near, i);
    var k :| 0 <= k < |clusters| && ProperCluster(samples, keep, kind, config, near, clusters[k], i);
    RejectIsSevere(samples, keep, config, near, root, clusters[k], i, firstId + k);
    assert RegionsOf(Some(samples), config, root, clusters, firstId)[k].severity.Reject?;
  }

  /** The reject flag of a class of deviation clusters says whether a component of the class is severe. */
  lemma DeviationRejects(samples: seq<DeviationSample>, keep: DeviationSample -> bool, kind: DefectType, config: Config,
                         near: Near, root: real -> real, clusters: seq<Cluster>, firstId: nat)
    requires ValidConfig(config) && !kind.MissingMaterial? && IsClusters(samples, keep, kind, config, near, clusters)
    ensures AnyReject(RegionsOf(Some(samples), config, root, clusters, firstId)) <==> SevereDeviation(samples, keep, config, near)
  {
    if AnyReject(RegionsOf(Some(samples), config, root, clusters, firstId)) {
      ClustersOnlyComponents(samples, keep, kind, config, near, clusters);
      RejectedCluster(samples, keep, kind, config, near, root, clusters, firstId);
    }
    if SevereDeviation(samples, keep, config, near) {
      ClustersAllComponents(samples, keep, kind, config, near, clusters);
      SevereComponent(samples, keep, kind, config, near, root, clusters, firstId);
    }
  }

  lemma MissingRejects(samples: seq<CoverageSample>, config: Config, near: Near, root: real -> real,
                       clusters: seq<Cluster>, firstId: nat)
    requires IsClusters(samples, IsMissing(), MissingMaterial, config, near, clusters)
    ensures AnyReject(RegionsOf(None, config, root, clusters, firstId)) <==> LargeGap(samples, config, near)
  {
    if clusters != [] {
      MissingRejected(samples, config, near, root, clusters, firstId);
    } else if LargeGap(samples, config, near) {
      NoGap(samples, config, near, clusters);
    }
  }

  lemma MissingRejected(samples: seq<CoverageSample>, config: Config, near: Near, root: real -> real,
                        clusters: seq<Cluster>, firstId: nat)
    requires IsClusters(samples, IsMissing(), MissingMaterial, config, near, clusters) && clusters != []
    ensures AnyReject(RegionsOf(None, config, root, clusters, firstId)) && LargeGap(samples, config, near)
  {
    ClustersOnlyComponents(samples, IsMissing(), MissingMaterial, config, near, clusters);
    assert IsProper(samples, IsMissing(), MissingMaterial, config, near, clusters[0]);
    var i :| ProperCluster(samples, IsMissing(), MissingMaterial, config, near, clusters[0], i);
    assert RegionsOf(None, config, root, clusters, firstId)[0].severity.Reject?;
  }

  lemma NoGap(samples: seq<CoverageSample>, config: Config, near: Near, clusters: seq<Cluster>)
    requires IsClusters(samples, IsMissing(), MissingMaterial, config, near, clusters) && clusters == []
    ensures !LargeGap(samples, config, near)
  {
    ClustersAllComponents(samples, IsMissing(), MissingMaterial, config, near, clusters);
  }

  /** Clusters of valid points can always be measured. */
  lemma ClustersMeasurable<P, T>(surface: Surface<P>, samples: seq<T>, keep: T -> bool, kind: DefectType, config: Config, near: Near,
                                 clusters: seq<Cluster>, field: Option<seq<DeviationSample>>)
    requires WellFormed(surface) && |samples| == |surface.points| && (field.Some? ==> |field.value| == |surface.points|)
    requires forall i :: 0 <= i < |samples| && keep(samples[i]) ==> ValidAt(surface, i)
    requires IsClusters(samples, keep, kind, config, near, clusters)
    ensures forall k :: 0 <= k < |clusters| ==> Measurable(surface, Millimeter, field, clusters[k])
  {
    ClustersOnlyComponents(samples, keep, kind, config, near, clusters);
    forall k | 0 <= k < |clusters|
      ensures Measurable(surface, Millimeter, field, clusters[k])
    {
      assert IsProper(samples, keep, kind, config, near, clusters[k]);
      var i :| ProperCluster(samples, keep, kind, config, near, clusters[k], i);
      forall m | 0 <= m < |clusters[k].members|
        ensures clusters[k].members[m] < |surface.points| && ValidAt(surface, clusters[k].members[m])
      {
        FilledBy(samples, keep, config, near, clusters[k].members, i, clusters[k].members[m]);
      }
    }
  }

  // ----- reports -----

  datatype Verdict = Pass | Fail | Indeterminate

  datatype Report = Report(verdict: Verdict, deviations: DeviationStatistics, coverage: CoverageSummary, regions: seq<Region>)

  const NO_DEVIATIONS := DeviationStatistics(0, 0, 0, 0, 0, 0, Summary(0.0, 0.0, 0.0, 0.0))
  const NO_COVERAGE := CoverageSummary(0, 0, 0.0, 0, 0, 0)

  /** The regions: bumps and dents by scan points, then missing material by reference points. */
  ghost predicate IsRegions<P>(s: Scene<P>, root: real -> real, regions: seq<Region>)
    requires Ready(s)
  {
    var d, c := Deviations(s, root), Coverage(s, root);
    exists bumps, dents, missing ::
      && IsClusters(d, IsBump(s.config), Bump, s.config, s.nearScan, bumps)
      && IsClusters(d, IsDent(s.config), Dent, s.config, s.nearScan, dents)
      && IsClusters(c, IsMissing(), MissingMaterial, s.config, s.nearReference, missing)
      && regions == RegionsOf(Some(d), s.config, root, bumps + dents, 0)
                    + RegionsOf(None, s.config, root, missing, |bumps + dents|)
  }

  /** The whole report of a comparable scene, gate included. */
  ghost predicate IsReport<P>(gatePassed: bool, s: Scene<P>, root: real -> real, report: Report)
    requires Ready(s)
  {
    if !gatePassed then report == Report(Indeterminate, NO_DEVIATIONS, NO_COVERAGE, [])
    else
      var d, c := Deviations(s, root), Coverage(s, root);
      && Counts(report.deviations, d) && report.deviations.summary == SummaryOf(TrustedValues(d), root)
      && CoverageCounts(report.coverage, c)
      && report.coverage.coveredCount == Count(c, IsCovered()) && report.coverage.validCount == Count(c, IsKnown())
      && report.coverage.ratio == CoverageRatio(report.coverage.coveredCount, report.coverage.validCount)
      && IsRegions(s, root, report.regions)
      && report.verdict ==
           if report.coverage.ratio < s.minCoverage || report.deviations.validCount == 0 then Indeterminate
           else if Defective(s, root) then Fail else Pass
  }

  /** P09: clusters, then regions. Neither step can fail here. */
  method Detect<P>(s: Scene<P>, root: real -> real, deviations: seq<DeviationSample>, coverage: seq<CoverageSample>)
    returns (regions: seq<Region>, hasReject: bool)
    requires Ready(s) && deviations == Deviations(s, root) && coverage == Coverage(s, root)
    ensures IsRegions(s, root, regions) && (hasReject <==> Defective(s, root))
  {
    var found := ClusterDeviations(s.scan, Millimeter, deviations, s.config, s.nearScan);
    var missing := ClusterMissing(s.reference, Millimeter, coverage, s.config, s.nearReference);
    ghost var bumps, dents :| IsClusters(deviations, IsBump(s.config), Bump, s.config, s.nearScan, bumps)
      && IsClusters(deviations, IsDent(s.config), Dent, s.config, s.nearScan, dents) && found.value == bumps + dents;
    regions, hasReject := MeasureFound(s, root, deviations, coverage, found.value, missing.value, bumps, dents);
  }

  lemma BothLists(a: seq<Region>, b: seq<Region>)
    ensures AnyReject(a + b) <==> AnyReject(a) || AnyReject(b)
  {
    if AnyReject(a) {
      var i :| 0 <= i < |a| && a[i].severity.Reject?;
      assert (a + b)[i].severity.Reject?;
    }
    if AnyReject(b) {
      var i :| 0 <= i < |b| && b[i].severity.Reject?;
      assert (a + b)[|a| + i].severity.Reject?;
    }
  }

  lemma RegionsOfConcat(field: Option<seq<DeviationSample>>, config: Config, root: real -> real, a: seq<Cluster>, b: seq<Cluster>, firstId: nat)
    ensures RegionsOf(field, config, root, a + b, firstId) ==
      RegionsOf(field, config, root, a, firstId) + RegionsOf(field, config, root, b, firstId + |a|)
  {
  }

  lemma EitherRejects(field: Option<seq<DeviationSample>>, config: Config, root: real -> real, a: seq<Cluster>, b: seq<Cluster>)
    ensures AnyReject(RegionsOf(field, config, root, a + b, 0)) <==>
      AnyReject(RegionsOf(field, config, root, a, 0)) || AnyReject(RegionsOf(field, config, root, b, |a|))
  {
    RegionsOfConcat(field, config, root, a, b, 0);
    BothLists(RegionsOf(field, config, root, a, 0), RegionsOf(field, config, root, b, |a|));
  }

  lemma AllMeasurable<P>(s: Scene<P>, root: real -> real, bumps: seq<Cluster>, dents: seq<Cluster>, missing: seq<Cluster>)
    requires Ready(s)
    requires IsClusters(Deviations(s, root), IsBump(s.config), Bump, s.config, s.nearScan, bumps)
    requires IsClusters(Deviations(s, root), IsDent(s.config), Dent, s.config, s.nearScan, dents)
    requires IsClusters(Coverage(s, root), IsMissing(), MissingMaterial, s.config, s.nearReference, missing)
    ensures forall k :: 0 <= k < |bumps + dents| ==> Measurable(s.scan, Millimeter, Some(Deviations(s, root)), (bumps + dents)[k])
    ensures forall k :: 0 <= k < |missing| ==> Measurable(s.reference, Millimeter, None, missing[k])
  {
    var d, c := Deviations(s, root), Coverage(s, root);
    ClustersMeasurable(s.scan, d, IsBump(s.config), Bump, s.config, s.nearScan, bumps, Some(d));
    ClustersMeasurable(s.scan, d, IsDent(s.config), Dent, s.config, s.nearScan, dents, Some(d));
    ClustersMeasurable(s.reference, c, IsMissing(), MissingMaterial, s.config, s.nearReference, missing, None);
  }

  /** The two measuring loops; the second continues the ids of the first. */
  method MeasureFound<P>(s: Scene<P>, root: real -> real, deviations: seq<DeviationSample>, coverage: seq<CoverageSample>,
                         found: seq<Cluster>, missing: seq<Cluster>, ghost bumps: seq<Cluster>, ghost dents: seq<Cluster>)
    returns (regions: seq<Region>, hasReject: bool)
    requires found == bumps + dents
    requires Ready(s) && deviations == Deviations(s, root) && coverage == Coverage(s, root)
    requires IsClusters(deviations, IsBump(s.config), Bump, s.config, s.nearScan, bumps)
    requires IsClusters(deviations, IsDent(s.config), Dent, s.config, s.nearScan, dents)
    requires IsClusters(coverage, IsMissing(), MissingMaterial, s.config, s.nearReference, missing)
    ensures hasReject <==> Defective(s, root)
    ensures regions == RegionsOf(Some(deviations), s.config, root, bumps + dents, 0)
                       + RegionsOf(None, s.config, root, missing, |bumps + dents|)
  {
    AllMeasurable(s, root, bumps, dents, missing);
    DeviationRejects(deviations, IsBump(s.config), Bump, s.config, s.nearScan, root, bumps, 0);
    DeviationRejects(deviations, IsDent(s.config), Dent, s.config, s.nearScan, root, dents, |bumps|);
    MissingRejects(coverage, s.config, s.nearReference, root, missing, |bumps + dents|);
    EitherRejects(Some(deviations), s.config, root, bumps, dents);
    var first, firstReject := MeasureAll(found, s.scan, Millimeter, Some(deviations), s.config, root, 0);
    var second, secondReject := MeasureAll(missing, s.reference, Millimeter, None, s.config, root, |found|);
    regions, hasReject := first.value + second.value, firstReject || secondReject;
  }

  /** The pipeline from the gate to the verdict. Only the comparison stage can fail. */
  method Inspect<P>(gatePassed: bool, s: Scene<P>, root: real -> real) returns (r: Result<Report, ComparisonError>)
    requires Ready(s)
    ensures r.Success? <==> !gatePassed || Comparable(s)
    ensures r.Failure? ==> r.error == SceneFault(s)
    ensures r.Success? ==> IsReport(gatePassed, s, root, r.value)
  {
    if !gatePassed {
      return Success(Report(Indeterminate, NO_DEVIATIONS, NO_COVERAGE, []));
    }
    var deviation := ComputeDeviation(s.reference, Millimeter, s.referenceBoundary, s.scan, Millimeter, s.geometry,
                                      s.nearestReference, s.searchLimit, root, s.threads);
    if deviation.Failure? {
      return Failure(deviation.error);
    }
    var coverage := ComputeCoverage(s.reference, Millimeter, s.scan, Millimeter, s.scanBoundary,
                                    s.nearestScan, s.searchLimit, root, s.threads);
    if coverage.Failure? {
      return Failure(coverage.error);
    }
    var statistics := SummarizeDeviation(deviation.value, root);
    var summary := SummarizeCoverage(coverage.value);
    var coverageFailed := summary.ratio < s.minCoverage;
    var regions, hasReject := Detect(s, root, deviation.value.samples, coverage.value.samples);
    var verdict := if coverageFailed || statistics.validCount == 0 then Indeterminate
                   else if hasReject then Fail else Pass;
    r := Success(Report(verdict, statistics, summary, regions));
  }

  // ----- what the verdict says -----

  /** The valid reference point found for scan point i. */
  ghost function FoundFor<P>(s: Scene<P>, i: nat): (found: Option<nat>)
    requires Ready(s)
  {
    var packed := ValidIndices(s.reference, Logical(s.reference));
    if s.nearestReference(i).Some? && s.nearestReference(i).value.squared <= s.searchLimit && s.nearestReference(i).value.position < |packed|
    then Some(packed[s.nearestReference(i).value.position]) else None
  }

  /** Scan point i has a deviation that counts: it is there, and the reference point found for it has a usable normal
      that agrees with its own, and is no boundary point. */
  ghost predicate Measured<P>(s: Scene<P>, i: nat)
    requires Ready(s)
  {
    && i < |s.scan.points| && IsLogical(s.scan, i) && ValidAt(s.scan, i)
    && match FoundFor(s, i)
       case None => false
       case Some(n) =>
         s.geometry.usable(n) && !s.geometry.mismatch(i, n) && (n < |s.referenceBoundary| ==> s.referenceBoundary[n] == 0)
  }

  ghost function SignedAt<P>(s: Scene<P>, i: nat): real
    requires Ready(s)
  {
    if FoundFor(s, i).Some? then s.geometry.signed(i, FoundFor(s, i).value) else 0.0
  }

  ghost function Bumps<P>(s: Scene<P>): nat -> bool {
    (i: nat) => Ready(s) && Measured(s, i) && SignedAt(s, i) > s.config.positive
  }

  ghost function Dents<P>(s: Scene<P>): nat -> bool {
    (i: nat) => Ready(s) && Measured(s, i) && SignedAt(s, i) < s.config.negative
  }

  /** Reference point i is there, but no scan point is found for it. */
  ghost function Gaps<P>(s: Scene<P>): nat -> bool {
    (i: nat) =>
      && Ready(s) && i < |s.reference.points| && IsLogical(s.reference, i) && ValidAt(s.reference, i)
      && (s.nearestScan(i).None? || s.nearestScan(i).value.squared > s.searchLimit
          || s.nearestScan(i).value.position >= |ValidIndices(s.scan, Logical(s.scan))|)
  }

  /** Some passing point is joined by chains of passing points to at least the configured number of them. */
  ghost predicate LargeGroup(n: nat, passes: nat -> bool, config: Config, near: Near, i: nat) {
    i < n && passes(i) && |Reached(n, passes, config.tolerance, near, i)| >= config.minPoints
  }

  /** Such a group holds a scan point that deviates by at least twice either threshold. */
  ghost predicate ExtremeGroup<P>(s: Scene<P>, passes: nat -> bool, i: nat)
    requires Ready(s)
  {
    && LargeGroup(|s.scan.points|, passes, s.config, s.nearScan, i)
    && exists j :: j in Reached(|s.scan.points|, passes, s.config.tolerance, s.nearScan, i)
                   && Abs(SignedAt(s, j)) >= 2.0 * s.config.positive && Abs(SignedAt(s, j)) >= -2.0 * s.config.negative
  }

  /** What the scan's samples hold. */
  lemma SampleMeans<P>(s: Scene<P>, root: real -> real, i: nat)
    requires Ready(s) && i < |s.scan.points|
    ensures var sample := Deviations(s, root)[i];
      && (sample.reason == Trusted <==> Measured(s, i))
      && (Measured(s, i) ==> sample.signed == SignedAt(s, i))
      && (IsBump(s.config)(sample) <==> Bumps(s)(i)) && (IsDent(s.config)(sample) <==> Dents(s)(i))
  {
    NeighborMeans(s.reference, s.scan, s.nearestReference, s.searchLimit, root, i);
    DeviationReasons(s.reference, s.referenceBoundary, s.scan, s.geometry, s.nearestReference, s.searchLimit, root, i);
  }

  lemma GapMeans<P>(s: Scene<P>, root: real -> real, i: nat)
    requires Ready(s) && i < |s.reference.points|
    ensures IsMissing()(Coverage(s, root)[i]) <==> Gaps(s)(i)
  {
    NeighborMeans(s.scan, s.reference, s.nearestScan, s.searchLimit, root, i);
    CoverageReasons(s.reference, s.scanBoundary, NearestTo(s.scan, s.reference, s.nearestScan, s.searchLimit, root), i);
  }

  /** A severe component is an extreme group. */
  lemma SevereMeans<P>(s: Scene<P>, root: real -> real, keep: DeviationSample -> bool, passes: nat -> bool, i: nat)
    requires Ready(s) && forall x: nat :: x < |s.scan.points| ==> (passes(x) <==> keep(Deviations(s, root)[x]))
    requires forall x: nat :: x < |s.scan.points| && passes(x) ==> Measured(s, x)
    ensures Severe(Deviations(s, root), keep, s.config, s.nearScan, i) <==> ExtremeGroup(s, passes, i)
  {
    var d := Deviations(s, root);
    if i < |d| && keep(d[i]) {
      ComponentIsReached(d, keep, passes, s.config.tolerance, s.nearScan, i);
      forall j | j in Component(d, keep, s.config.tolerance, s.nearScan, i)
        ensures d[j].signed == SignedAt(s, j)
      {
        SampleMeans(s, root, j);
      }
    }
  }

  lemma BumpMeans<P>(s: Scene<P>, root: real -> real, i: nat)
    requires Ready(s)
    ensures Severe(Deviations(s, root), IsBump(s.config), s.config, s.nearScan, i) <==> ExtremeGroup(s, Bumps(s), i)
    ensures Severe(Deviations(s, root), IsDent(s.config), s.config, s.nearScan, i) <==> ExtremeGroup(s, Dents(s), i)
  {
    forall x: nat | x < |s.scan.points|
      ensures Bumps(s)(x) <==> IsBump(s.config)(Deviations(s, root)[x])
      ensures Dents(s)(x) <==> IsDent(s.config)(Deviations(s, root)[x])
    {
      SampleMeans(s, root, x);
    }
    SevereMeans(s, root, IsBump(s.config), Bumps(s), i);
    SevereMeans(s, root, IsDent(s.config), Dents(s), i);
  }

  lemma LargeGapMeans<P>(s: Scene<P>, root: real -> real, i: nat)
    requires Ready(s)
    ensures LargeComponent(Coverage(s, root), IsMissing(), s.config, s.nearReference, i) <==>
      LargeGroup(|s.reference.points|, Gaps(s), s.config, s.nearReference, i)
  {
    var c := Coverage(s, root);
    forall x: nat | x < |c|
      ensures Gaps(s)(x) <==> IsMissing()(c[x])
    {
      GapMeans(s, root, x);
    }
    if i < |c| && IsMissing()(c[i]) {
      ComponentIsReached(c, IsMissing(), Gaps(s), s.config.tolerance, s.nearReference, i);
    }
  }

  /** A part is to be rejected exactly when its scan shows a bump or a dent that is large and somewhere extreme, or its
      reference a large gap. */
  lemma DefectiveMeans<P>(s: Scene<P>, root: real -> real)
    requires Ready(s)
    ensures Defective(s, root) <==>
      exists i :: ExtremeGroup(s, Bumps(s), i) || ExtremeGroup(s, Dents(s), i)
                  || LargeGroup(|s.reference.points|, Gaps(s), s.config, s.nearReference, i)
  {
    forall i: nat
      ensures Severe(Deviations(s, root), IsBump(s.config), s.config, s.nearScan, i) <==> ExtremeGroup(s, Bumps(s), i)
      ensures Severe(Deviations(s, root), IsDent(s.config), s.config, s.nearScan, i) <==> ExtremeGroup(s, Dents(s), i)
      ensures LargeComponent(Coverage(s, root), IsMissing(), s.config, s.nearReference, i) <==>
        LargeGroup(|s.reference.points|, Gaps(s), s.config, s.nearReference, i)
    {
      BumpMeans(s, root, i);
      LargeGapMeans(s, root, i);
    }
  }

  /** The reference points there are, and those covered: a scan point is found for them that is no boundary point. */
  ghost function Present<P>(s: Scene<P>): set<nat> {
    set i: nat | i < |s.reference.points| && Ready(s) && IsLogical(s.reference, i) && ValidAt(s.reference, i)
  }

  ghost predicate IsSeen<P>(s: Scene<P>, i: nat)
    requires Ready(s)
  {
    var packed, hit := ValidIndices(s.scan, Logical(s.scan)), s.nearestScan(i);
    && hit.Some? && hit.value.squared <= s.searchLimit && hit.value.position < |packed|
    && var n := packed[hit.value.position]; n < |s.scanBoundary| ==> s.scanBoundary[n] == 0
  }

  ghost function Seen<P>(s: Scene<P>): set<nat> {
    set i: nat | i in Present(s) && Ready(s) && IsSeen(s, i)
  }

  lemma CoverageMeans<P>(s: Scene<P>, root: real -> real)
    requires Ready(s)
    ensures Count(Coverage(s, root), IsCovered()) == |Seen(s)| && Count(Coverage(s, root), IsKnown()) == |Present(s)|
  {
    var c := Coverage(s, root);
    forall i: nat | i < |c|
      ensures IsCovered()(c[i]) <==> i in Seen(s)
      ensures IsKnown()(c[i]) <==> i in Present(s)
    {
      NeighborMeans(s.scan, s.reference, s.nearestScan, s.searchLimit, root, i);
      CoverageReasons(s.reference, s.scanBoundary, NearestTo(s.scan, s.reference, s.nearestScan, s.searchLimit, root), i);
    }
    CountIsSize(c, IsCovered(), Seen(s));
    CountIsSize(c, IsKnown(), Present(s));
  }

  lemma EvidenceMeans<P>(s: Scene<P>, root: real -> real)
    requires Ready(s)
    ensures Count(Deviations(s, root), HasReason(Trusted)) > 0 <==> exists i :: Measured(s, i)
  {
    var d := Deviations(s, root);
    forall i: nat | i < |d|
      ensures HasReason(Trusted)(d[i]) <==> Measured(s, i)
    {
      SampleMeans(s, root, i);
    }
    var measured := set i: nat | i < |d| && Measured(s, i);
    CountIsSize(d, HasReason(Trusted), measured);
    if i: nat :| Measured(s, i) {
      assert i in measured;
    } else {
      assert measured == {};
    }
  }

  /** Too few reference points are covered. */
  ghost predicate TooThin<P>(s: Scene<P>) {
    if Present(s) == {} then 0.0 < s.minCoverage else |Seen(s)| as real < Times(s.minCoverage, |Present(s)| as real)
  }

  lemma RatioBelow(covered: nat, valid: nat, minimum: real)
    ensures CoverageRatio(covered, valid) < minimum <==>
      if valid == 0 then 0.0 < minimum else covered as real < Times(minimum, valid as real)
  {
    if valid > 0 {
      QuotientTimes(covered as real, valid as real);
      SmallerProduct(covered as real / valid as real, minimum, valid as real);
    }
  }

  lemma SmallerProduct(a: real, b: real, n: real)
    requires n > 0.0
    ensures a < b <==> a * n < b * n
  {
    var d := b - a;
    assert b * n - a * n == d * n;
    if d > 0.0 {
      assert d * n > 0.0;
    } else {
      assert d * n <= 0.0;
    }
  }

  /** The verdict told from the two surfaces alone: indeterminate without coverage or without a deviation that counts; else
      the part fails exactly for an extreme bump or dent or a large gap. */
  ghost predicate IsVerdict<P>(s: Scene<P>, verdict: Verdict)
    requires Ready(s)
  {
    && (verdict == Indeterminate <==> TooThin(s) || forall i :: !Measured(s, i))
    && (verdict == Fail <==>
          && !TooThin(s) && (exists i :: Measured(s, i))
          && exists i :: ExtremeGroup(s, Bumps(s), i) || ExtremeGroup(s, Dents(s), i)
                         || LargeGroup(|s.reference.points|, Gaps(s), s.config, s.nearReference, i))
  }

  /** The verdict of a report, which without a registration to trust is indeterminate. */
  lemma VerdictMeans<P>(gatePassed: bool, s: Scene<P>, root: real -> real, report: Report)
    requires Ready(s) && IsReport(gatePassed, s, root, report)
    ensures if gatePassed then IsVerdict(s, report.verdict) else report.verdict == Indeterminate
  {
    DefectiveMeans(s, root);
    CoverageMeans(s, root);
    EvidenceMeans(s, root);
    RatioBelow(|Seen(s)|, |Present(s)|, s.minCoverage);
  }

  // ----- consequences -----

  function Anonymous(): Region -> Region {
    (r: Region) => r.(id := 0)
  }

  lemma ConsecutiveIds(a: seq<Region>, b: seq<Region>)
    requires forall i :: 0 <= i < |a| ==> a[i].id == i
    requires forall i :: 0 <= i < |b| ==> b[i].id == |a| + i
    ensures forall i :: 0 <= i < |a + b| ==> (a + b)[i].id == i
  {
  }

  /** Region ids run 0, 1, ..., in report order. */
  lemma RegionIds<P>(s: Scene<P>, root: real -> real, regions: seq<Region>)
    requires Ready(s) && IsRegions(s, root, regions)
    ensures forall i :: 0 <= i < |regions| ==> regions[i].id == i
  {
    var d, c := Deviations(s, root), Coverage(s, root);
    var bumps, dents, missing :| IsClusters(d, IsBump(s.config), Bump, s.config, s.nearScan, bumps)
      && IsClusters(d, IsDent(s.config), Dent, s.config, s.nearScan, dents)
      && IsClusters(c, IsMissing(), MissingMaterial, s.config, s.nearReference, missing)
      && regions == RegionsOf(Some(d), s.config, root, bumps + dents, 0) + RegionsOf(None, s.config, root, missing, |bumps + dents|);
    ConsecutiveIds(RegionsOf(Some(d), s.config, root, bumps + dents, 0), RegionsOf(None, s.config, root, missing, |bumps + dents|));
  }

  ghost function AnonymousRegion(field: Option<seq<DeviationSample>>, config: Config, root: real -> real): Cluster -> Region {
    (c: Cluster) => RegionOf(field, config, root, c, 0)
  }

  lemma AnonymousRegions(field: Option<seq<DeviationSample>>, config: Config, root: real -> real, clusters: seq<Cluster>, firstId: nat)
    ensures Map(Anonymous(), RegionsOf(field, config, root, clusters, firstId)) == Map(AnonymousRegion(field, config, root), clusters)
  {
  }

  lemma RegionsPermuted(field: Option<seq<DeviationSample>>, config: Config, root: real -> real,
                        a: seq<Cluster>, b: seq<Cluster>, firstA: nat, firstB: nat)
    requires multiset(a) == multiset(b)
    ensures multiset(Map(Anonymous(), RegionsOf(field, config, root, a, firstA))) ==
            multiset(Map(Anonymous(), RegionsOf(field, config, root, b, firstB)))
  {
    MapPermuted(AnonymousRegion(field, config, root), a, b);
    AnonymousRegions(field, config, root, a, firstA);
    AnonymousRegions(field, config, root, b, firstB);
  }

  lemma MapConcat<T, U>(f: T -> U, s: seq<T>, t: seq<T>)
    ensures Map(f, s + t) == Map(f, s) + Map(f, t)
  {
  }

  lemma SameRegions<P>(s: Scene<P>, root: real -> real, a: seq<Region>, b: seq<Region>)
    requires Ready(s) && IsRegions(s, root, a) && IsRegions(s, root, b)
    ensures multiset(Map(Anonymous(), a)) == multiset(Map(Anonymous(), b))
  {
    var d, c, config := Deviations(s, root), Coverage(s, root), s.config;
    var b1, d1, m1 :| IsClusters(d, IsBump(config), Bump, config, s.nearScan, b1) && IsClusters(d, IsDent(config), Dent, config, s.nearScan, d1)
      && IsClusters(c, IsMissing(), MissingMaterial, config, s.nearReference, m1)
      && a == RegionsOf(Some(d), config, root, b1 + d1, 0) + RegionsOf(None, config, root, m1, |b1 + d1|);
    var b2, d2, m2 :| IsClusters(d, IsBump(config), Bump, config, s.nearScan, b2) && IsClusters(d, IsDent(config), Dent, config, s.nearScan, d2)
      && IsClusters(c, IsMissing(), MissingMaterial, config, s.nearReference, m2)
      && b == RegionsOf(Some(d), config, root, b2 + d2, 0) + RegionsOf(None, config, root, m2, |b2 + d2|);
    ClustersPermuted(d, IsBump(config), Bump, config, s.nearScan, b1, b2);
    ClustersPermuted(d, IsDent(config), Dent, config, s.nearScan, d1, d2);
    ClustersPermuted(c, IsMissing(), MissingMaterial, config, s.nearReference, m1, m2);
    RegionsPermuted(Some(d), config, root, b1 + d1, b2 + d2, 0, 0);
    RegionsPermuted(None, config, root, m1, m2, |b1 + d1|, |b2 + d2|);
    MapConcat(Anonymous(), RegionsOf(Some(d), config, root, b1 + d1, 0), RegionsOf(None, config, root, m1, |b1 + d1|));
    MapConcat(Anonymous(), RegionsOf(Some(d), config, root, b2 + d2, 0), RegionsOf(None, config, root, m2, |b2 + d2|));
  }

  /** The same verdict and statistics, and the same regions up to their order and ids. */
  ghost predicate SameReport(a: Report, b: Report) {
    && a.verdict == b.verdict && a.deviations == b.deviations && a.coverage == b.coverage
    && multiset(Map(Anonymous(), a.regions)) == multiset(Map(Anonymous(), b.regions))
  }

  /** Two inspections of the same scene, whatever the hash order, thread interleaving or neighbour order. */
  lemma ReportsAgree<P>(gatePassed: bool, s: Scene<P>, root: real -> real, a: Report, b: Report)
    requires Ready(s) && IsReport(gatePassed, s, root, a) && IsReport(gatePassed, s, root, b)
    ensures SameReport(a, b)
  {
    if gatePassed {
      SameRegions(s, root, a.regions, b.regions);
    }
  }

  /** The number of threads, as long as there is one, shows neither in whether surfaces can be compared, nor in how
      that fails, nor in what is reported. */
  lemma ReportIgnoresThreads<P>(s: Scene<P>, threads: nat)
    requires Ready(s) && s.threads > 0 && threads > 0
    ensures var t := s.(threads := threads);
      && Ready(t) && (Comparable(t) <==> Comparable(s)) && SceneFault(t) == SceneFault(s)
      && forall gatePassed: bool, root: real -> real, report: Report {:trigger IsReport(gatePassed, t, root, report)} ::
           IsReport(gatePassed, t, root, report) <==> IsReport(gatePassed, s, root, report)
  {
    var t := s.(threads := threads);
    forall gatePassed: bool, root: real -> real, report: Report
      ensures IsReport(gatePassed, t, root, report) <==> IsReport(gatePassed, s, root, report)
    {
      SameReports(gatePassed, s, t, root, report);
    }
  }

  lemma SameReports<P>(gatePassed: bool, s: Scene<P>, t: Scene<P>, root: real -> real, report: Report)
    requires Ready(s) && t == s.(threads := t.threads)
    ensures IsReport(gatePassed, t, root, report) <==> IsReport(gatePassed, s, root, report)
  {
    SameScene(s, t, root, report);
  }

  lemma SameScene<P>(s: Scene<P>, t: Scene<P>, root: real -> real, report: Report)
    requires Ready(s) && t == s.(threads := t.threads)
    ensures Deviations(t, root) == Deviations(s, root) && Coverage(t, root) == Coverage(s, root)
    ensures Defective(t, root) <==> Defective(s, root)
    ensures IsRegions(t, root, report.regions) <==> IsRegions(s, root, report.regions)
  {
  }
}
