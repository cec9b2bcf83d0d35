/**
  The two comparison fields of src/comparison: per stored scan point a signed deviation or the reason
  there is none, and per stored reference point whether the scan covers it. Both come from the
  parallel nearest-neighbour query of src/backends/pcl/pcl_comparison_backend.cpp.
 */
module Fields {
  import opened Basics
  import opened Surfaces
  import opened BlockJobs
  import opened CpuExecutorObject

  // ----- nearest neighbours -----

  /** The library's answer for one query: a position among the indexed points and a squared distance. */
  datatype Hit = Hit(position: nat, squared: real)

  /** A neighbour's storage index and its distance. */
  datatype Neighbor = Neighbor(index: nat, distance: real)

  /** The storage indices of the valid ones among the first n logical points: what the tree is built on. */
  function ValidIndices<P>(s: Surface<P>, n: nat): (indices: seq<nat>)
    requires s.valid == [] || |s.valid| == |s.points|
    ensures forall i :: 0 <= i < |indices| ==> indices[i] < |s.points| && ValidAt(s, indices[i])
  {
    if n == 0 then []
    else
      var rest, at := ValidIndices(s, n - 1), StorageIndex(s.grid, n - 1);
      if at < |s.points| && ValidAt(s, at) then rest + [at] else rest
  }

  /** They are all the valid logical points. */
  lemma {:induction false} ValidIndicesComplete<P>(s: Surface<P>, n: nat, x: nat)
    requires WellFormed(s) && n <= Logical(s)
    ensures x in ValidIndices(s, n) <==>
      x < |s.points| && ValidAt(s, x) && exists k: nat :: k < n && StorageIndex(s.grid, k) == x
  {
    if n > 0 {
      ValidIndicesComplete(s, n - 1, x);
      StorageInRange(|s.points|, s.grid, n - 1);
    }
  }

  /** In storage order, each once. */
  lemma {:induction false} ValidIndicesAscend<P>(s: Surface<P>, n: nat)
    requires WellFormed(s) && n <= Logical(s)
    ensures forall i, j :: 0 <= i < j < |ValidIndices(s, n)| ==> ValidIndices(s, n)[i] < ValidIndices(s, n)[j]
  {
    if n > 0 {
      ValidIndicesAscend(s, n - 1);
      var rest, at := ValidIndices(s, n - 1), StorageIndex(s.grid, n - 1);
      forall i | 0 <= i < |rest|
        ensures rest[i] < at
      {
        ValidIndicesComplete(s, n - 1, rest[i]);
        var k: nat :| k < n - 1 && StorageIndex(s.grid, k) == rest[i];
        StorageIncreasing(|s.points|, s.grid, k, n - 1);
      }
    }
  }

  method CollectValid<P>(s: Surface<P>) returns (indices: seq<nat>)
    requires WellFormed(s)
    ensures indices == ValidIndices(s, Logical(s))
  {
    var order := ForEachLogicalIndex(|s.points|, s.grid);
    indices := [];
    for k := 0 to |order|
      invariant indices == ValidIndices(s, k)
    {
      StorageInRange(|s.points|, s.grid, k);
      if ValidAt(s, order[k]) {
        indices := indices + [order[k]];
      }
    }
  }

  /** The filters applied to the library's answer for the query point stored at index. */
  function Accept<P>(query: Surface<P>, packed: seq<nat>, search: nat -> Option<Hit>, limit: real, root: real -> real,
                     index: nat): (r: Option<Neighbor>)
    requires query.valid == [] || index < |query.valid|
    ensures r.Some? ==> ValidAt(query, index) && r.value.index in packed
  {
    if !ValidAt(query, index) then None
    else match search(index)
      case None => None
      case Some(hit) =>
        if hit.squared > limit || hit.position >= |packed| then None
        else Some(Neighbor(packed[hit.position], root(hit.squared)))
  }

  /** Storage-indexed results: logical points hold f, padding holds the default. */
  ghost predicate Scattered<P, T>(s: Surface<P>, upTo: nat, f: nat -> T, padding: T, result: seq<T>)
  {
    && |result| == |s.points|
    && (forall k: nat {:trigger StorageIndex(s.grid, k)} :: k < upTo ==>
          StorageIndex(s.grid, k) < |result| && result[StorageIndex(s.grid, k)] == f(StorageIndex(s.grid, k)))
    && (forall i: nat {:trigger result[i]} :: i < |result| && (forall k: nat {:trigger StorageIndex(s.grid, k)} :: k < upTo ==> StorageIndex(s.grid, k) != i) ==>
          result[i] == padding)
  }

  /** Writing the next logical point leaves the earlier ones and the padding alone. */
  lemma ScatterNext<P, T>(s: Surface<P>, k: nat, f: nat -> T, padding: T, result: seq<T>)
    requires WellFormed(s) && k < Logical(s) && Scattered(s, k, f, padding, result)
    ensures StorageIndex(s.grid, k) < |result| && result[StorageIndex(s.grid, k)] == padding
    ensures Scattered(s, k + 1, f, padding, result[StorageIndex(s.grid, k) := f(StorageIndex(s.grid, k))])
  {
    var at := StorageIndex(s.grid, k);
    StorageInRange(|s.points|, s.grid, k);
    forall j: nat | j < k
      ensures StorageIndex(s.grid, j) != at
    {
      StorageIncreasing(|s.points|, s.grid, j, k);
    }
  }

  ghost predicate IsLogical<P>(s: Surface<P>, i: nat) {
    exists k: nat :: k < Logical(s) && StorageIndex(s.grid, k) == i
  }

  /** The storage-indexed result of f: logical points hold f, padding holds the default. */
  ghost function Scatter<P, T>(s: Surface<P>, f: nat -> T, padding: T): (result: seq<T>)
    ensures |result| == |s.points|
    ensures forall i: nat :: i < |result| ==> result[i] == if IsLogical(s, i) then f(i) else padding
  {
    seq(|s.points|, (i: nat) requires i < |s.points| => if IsLogical(s, i) then f(i) else padding)
  }

  lemma ScatteredIsScatter<P, T>(s: Surface<P>, f: nat -> T, padding: T, result: seq<T>)
    requires WellFormed(s) && Scattered(s, Logical(s), f, padding, result)
    ensures result == Scatter(s, f, padding)
  {
    forall i: nat | i < |result|
      ensures result[i] == if IsLogical(s, i) then f(i) else padding
    {
      if IsLogical(s, i) {
        var k: nat :| k < Logical(s) && StorageIndex(s.grid, k) == i;
      }
    }
  }

  function Answers<P>(query: Surface<P>, packed: seq<nat>, search: nat -> Option<Hit>, limit: real, root: real -> real)
    : nat -> Option<Neighbor>
  {
    (index: nat) =>
      if query.valid == [] || index < |query.valid| then Accept(query, packed, search, limit, root, index) else None
  }

  /** What a comparison query must return, threads or no threads. */
  ghost function NearestTo<P>(reference: Surface<P>, query: Surface<P>, search: nat -> Option<Hit>,
                              limit: real, root: real -> real): (nearest: seq<Option<Neighbor>>)
    requires WellFormed(reference) && WellFormed(query)
    ensures |nearest| == |query.points|
    ensures forall i :: 0 <= i < |nearest| && nearest[i].Some? ==>
      ValidAt(query, i) && nearest[i].value.index < |reference.points| && ValidAt(reference, nearest[i].value.index)
  {
    var packed := ValidIndices(reference, Logical(reference));
    if packed == [] then seq(|query.points|, _ => None)
    else Scatter(query, Answers(query, packed, search, limit, root), None)
  }

  /** A valid logical query point has a neighbour exactly when the library reports a hit within the limit that is one of
      the indexed points; it is then the valid logical reference point at that position, at the root of the squared
      distance. Nothing else has one. */
  lemma NeighborMeans<P>(reference: Surface<P>, query: Surface<P>, search: nat -> Option<Hit>, limit: real, root: real -> real, i: nat)
    requires WellFormed(reference) && WellFormed(query) && i < |query.points|
    ensures var nearest, packed := NearestTo(reference, query, search, limit, root)[i], ValidIndices(reference, Logical(reference));
      && (nearest.Some? <==> IsLogical(query, i) && ValidAt(query, i) && search(i).Some?
                             && search(i).value.squared <= limit && search(i).value.position < |packed|)
      && (nearest.Some? ==> nearest.value == Neighbor(packed[search(i).value.position], root(search(i).value.squared)))
  {
  }

  /** nearest_neighbors: each valid query point gets its own answer for every thread count and every
      schedule. The executor refuses zero threads, unless there is nothing to search. */
  method NearestNeighbors<P>(reference: Surface<P>, query: Surface<P>, search: nat -> Option<Hit>,
                             limit: real, root: real -> real, threads: nat) returns (r: Option<seq<Option<Neighbor>>>)
    requires WellFormed(reference) && WellFormed(query)
    ensures r.None? <==> threads == 0 && ValidIndices(reference, Logical(reference)) != []
    ensures r.Some? ==> r.value == NearestTo(reference, query, search, limit, root)
  {
    var packed := CollectValid(reference);
    var result: seq<Option<Neighbor>> := seq(|query.points|, _ => None);
    if packed == [] {
      return Some(result);
    }
    var n, answers := Logical(query), Answers(query, packed, search, limit, root);
    var executor := MakeExecutor(threads, n);
    if executor.None? {
      return None;
    }
    var at := (k: nat) => Success(answers(StorageIndex(query.grid, k)));
    var buffer: seq<Option<Neighbor>> := seq(n, _ => None);
    var cells, outcome := executor.value.Run(FillJob(n, at), n, Slices(buffer));
    FillOverwrites(n, at, buffer);
    var filled := BlockJobs.Join(cells);
    for k := 0 to n
      invariant Scattered(query, k, answers, None, result)
    {
      ScatterNext(query, k, answers, None, result);
      result := result[StorageIndex(query.grid, k) := filled[k]];
    }
    ScatteredIsScatter(query, answers, None, result);
    r := Some(result);
  }

  // ----- deviation -----

  datatype LengthUnit = Millimeter | Meter | Micrometer

  datatype ComparisonError = ReferenceUnit | ScanUnit | NormalsRequired | BoundarySize | SearchFailed

  datatype DeviationReason = Trusted | InputInvalid | NoNeighbor | NormalMissing | NormalMismatch | ReferenceBoundary

  datatype DeviationSample = DeviationSample(euclidean: real, signed: real, angle: real, reason: DeviationReason)

  datatype DeviationField = DeviationField(samples: seq<DeviationSample>, validCount: nat)

  const UNSET := DeviationSample(0.0, 0.0, 0.0, InputInvalid)

  /** The floating-point geometry between a stored scan point and its reference neighbour. */
  datatype Geometry = Geometry(
    usable: nat -> bool,            // the reference normal has a positive finite length
    angle: (nat, nat) -> real,      // 0 unless both normals exist
    mismatch: (nat, nat) -> bool,   // the angle exceeds the configured one
    signed: (nat, nat) -> real)     // the offset along the reference normal

  /** The sample of a logical scan point: the first reason that applies, else its signed deviation. */
  function DeviationAt<P>(scan: Surface<P>, boundary: seq<nat>, g: Geometry, nearest: seq<Option<Neighbor>>)
    : nat -> DeviationSample
  {
    (i: nat) =>
      if i >= |nearest| || (scan.valid != [] && i >= |scan.valid|) || !ValidAt(scan, i) then UNSET
      else match nearest[i]
        case None => UNSET.(reason := NoNeighbor)
        case Some(n) =>
          if !g.usable(n.index) then UNSET.(reason := NormalMissing)
          else if g.mismatch(i, n.index) then DeviationSample(n.distance, 0.0, g.angle(i, n.index), NormalMismatch)
          else if n.index < |boundary| && boundary[n.index] != 0 then
            DeviationSample(n.distance, 0.0, g.angle(i, n.index), ReferenceBoundary)
          else DeviationSample(n.distance, g.signed(i, n.index), g.angle(i, n.index), Trusted)
  }

  function IsTrusted(): DeviationSample -> bool {
    (s: DeviationSample) => s.reason == Trusted
  }

  /** The first check of compute_deviation_field that fails, when one does. */
  function DeviationFault<P>(reference: Surface<P>, referenceUnit: LengthUnit, boundary: seq<nat>, scanUnit: LengthUnit): ComparisonError {
    if !referenceUnit.Millimeter? then ReferenceUnit
    else if !scanUnit.Millimeter? then ScanUnit
    else if reference.normals == [] then NormalsRequired
    else if boundary != [] && |boundary| != |reference.points| then BoundarySize
    else SearchFailed
  }

  /** The checks in their order. */
  lemma DeviationFaultMeans<P>(reference: Surface<P>, referenceUnit: LengthUnit, boundary: seq<nat>, scanUnit: LengthUnit)
    ensures var e := DeviationFault(reference, referenceUnit, boundary, scanUnit);
      var lengths, normals := referenceUnit == Millimeter && scanUnit == Millimeter, |reference.normals| > 0;
      && (e == ReferenceUnit <==> referenceUnit != Millimeter)
      && (e == ScanUnit <==> referenceUnit == Millimeter && scanUnit != Millimeter)
      && (e == NormalsRequired <==> lengths && !normals)
      && (e == BoundarySize <==> lengths && normals && |boundary| != 0 && |boundary| != |reference.points|)
      && (e == SearchFailed <==> lengths && normals && (|boundary| == 0 || |boundary| == |reference.points|))
  {
  }

  /** compute_deviation_field. */
  method ComputeDeviation<P>(reference: Surface<P>, referenceUnit: LengthUnit, boundary: seq<nat>,
                             scan: Surface<P>, scanUnit: LengthUnit, g: Geometry,
                             search: nat -> Option<Hit>, limit: real, root: real -> real, threads: nat)
    returns (r: Result<DeviationField, ComparisonError>)
    requires WellFormed(reference) && WellFormed(scan)
    ensures r.Success? <==>
      && referenceUnit.Millimeter? && scanUnit.Millimeter? && reference.normals != []
      && (boundary == [] || |boundary| == |reference.points|)
      && (threads > 0 || ValidIndices(reference, Logical(reference)) == [])
    ensures r.Failure? ==> r.error == DeviationFault(reference, referenceUnit, boundary, scanUnit)
    ensures r.Success? ==>
      && r.value.samples == Scatter(scan, DeviationAt(scan, boundary, g, NearestTo(reference, scan, search, limit, root)), UNSET)
      && r.value.validCount == Count(r.value.samples, IsTrusted())
  {
    if !referenceUnit.Millimeter? { return Failure(ReferenceUnit); }
    if !scanUnit.Millimeter? { return Failure(ScanUnit); }
    if reference.normals == [] { return Failure(NormalsRequired); }
    if boundary != [] && |boundary| != |reference.points| { return Failure(BoundarySize); }
    var found := NearestNeighbors(reference, scan, search, limit, root, threads);
    if found.None? { return Failure(SearchFailed); }
    var f := DeviationAt(scan, boundary, g, found.value);
    var samples := seq(|scan.points|, _ => UNSET);
    var validCount := 0;
    CountNone(samples, IsTrusted());
    var order := ForEachLogicalIndex(|scan.points|, scan.grid);
    for k := 0 to |order|
      invariant Scattered(scan, k, f, UNSET, samples) && validCount == Count(samples, IsTrusted())
    {
      ScatterNext(scan, k, f, UNSET, samples);
      CountUpdate(samples, order[k], f(order[k]), IsTrusted());
      samples := samples[order[k] := f(order[k])];
      if f(order[k]).reason == Trusted {
        validCount := validCount + 1;
      }
    }
    ScatteredIsScatter(scan, f, UNSET, samples);
    r := Success(DeviationField(samples, validCount));
  }

  /** The one reason each stored scan point gets, and what it carries: only a trusted point has a signed deviation, and
      only a point with a neighbour that has a usable normal has a distance and an angle. */
  lemma DeviationReasons<P>(reference: Surface<P>, boundary: seq<nat>, scan: Surface<P>, g: Geometry,
                            search: nat -> Option<Hit>, limit: real, root: real -> real, i: nat)
    requires WellFormed(reference) && WellFormed(scan) && i < |scan.points|
    ensures var nearest := NearestTo(reference, scan, search, limit, root);
      var sample := Scatter(scan, DeviationAt(scan, boundary, g, nearest), UNSET)[i];
      var present := IsLogical(scan, i) && ValidAt(scan, i);
      && (sample.reason == InputInvalid <==> !present)
      && (sample.reason == NoNeighbor <==> present && nearest[i].None?)
      && if !present || nearest[i].None? then sample.euclidean == sample.signed == sample.angle == 0.0
         else
           var n := nearest[i].value.index;
           var measured, marked := g.usable(n), n < |boundary| && boundary[n] != 0;
           && n < |reference.points| && ValidAt(reference, n)
           && (sample.reason == NormalMissing <==> !measured)
           && (sample.reason == NormalMismatch <==> measured && g.mismatch(i, n))
           && (sample.reason == ReferenceBoundary <==> measured && !g.mismatch(i, n) && marked)
           && (sample.reason == Trusted <==> measured && !g.mismatch(i, n) && !marked)
           && sample.euclidean == (if measured then nearest[i].value.distance else 0.0)
           && sample.angle == (if measured then g.angle(i, n) else 0.0)
           && sample.signed == (if measured && !g.mismatch(i, n) && !marked then g.signed(i, n) else 0.0)
  {
  }

  // ----- coverage -----

  datatype CoverageReason = Covered | Masked | Uncovered | ScanBoundary

  datatype CoverageSample = CoverageSample(distance: real, reason: CoverageReason)

  datatype CoverageField = CoverageField(samples: seq<CoverageSample>, coveredCount: nat, validCount: nat)

  const UNSEEN := CoverageSample(0.0, Masked)

  function CoverageAt<P>(reference: Surface<P>, boundary: seq<nat>, nearest: seq<Option<Neighbor>>): nat -> CoverageSample {
    (i: nat) =>
      if i >= |nearest| || (reference.valid != [] && i >= |reference.valid|) || !ValidAt(reference, i) then UNSEEN
      else match nearest[i]
        case None => UNSEEN.(reason := Uncovered)
        case Some(n) =>
          if n.index < |boundary| && boundary[n.index] != 0 then CoverageSample(n.distance, ScanBoundary)
          else CoverageSample(n.distance, Covered)
  }

  function IsCovered(): CoverageSample -> bool {
    (s: CoverageSample) => s.reason == Covered
  }

  function IsKnown(): CoverageSample -> bool {
    (s: CoverageSample) => s.reason != Masked
  }

  function CoverageFault<P>(referenceUnit: LengthUnit, scan: Surface<P>, scanUnit: LengthUnit, boundary: seq<nat>): ComparisonError {
    if !referenceUnit.Millimeter? then ReferenceUnit
    else if !scanUnit.Millimeter? then ScanUnit
    else if boundary != [] && |boundary| != |scan.points| then BoundarySize
    else SearchFailed
  }

  lemma CoverageFaultMeans<P>(referenceUnit: LengthUnit, scan: Surface<P>, scanUnit: LengthUnit, boundary: seq<nat>)
    ensures var e := CoverageFault(referenceUnit, scan, scanUnit, boundary);
      var lengths := referenceUnit == Millimeter && scanUnit == Millimeter;
      && (e == ReferenceUnit <==> referenceUnit != Millimeter)
      && (e == ScanUnit <==> referenceUnit == Millimeter && scanUnit != Millimeter)
      && (e == BoundarySize <==> lengths && |boundary| != 0 && |boundary| != |scan.points|)
      && (e == SearchFailed <==> lengths && (|boundary| == 0 || |boundary| == |scan.points|))
  {
  }

  /** compute_coverage_field: the search roles are swapped. */
  method ComputeCoverage<P>(reference: Surface<P>, referenceUnit: LengthUnit, scan: Surface<P>, scanUnit: LengthUnit,
                            boundary: seq<nat>, search: nat -> Option<Hit>, limit: real, root: real -> real, threads: nat)
    returns (r: Result<CoverageField, ComparisonError>)
    requires WellFormed(reference) && WellFormed(scan)
    ensures r.Success? <==>
      && referenceUnit.Millimeter? && scanUnit.Millimeter?
      && (boundary == [] || |boundary| == |scan.points|)
      && (threads > 0 || ValidIndices(scan, Logical(scan)) == [])
    ensures r.Failure? ==> r.error == CoverageFault(referenceUnit, scan, scanUnit, boundary)
    ensures r.Success? ==>
      && r.value.samples == Scatter(reference, CoverageAt(reference, boundary, NearestTo(scan, reference, search, limit, root)), UNSEEN)
      && r.value.coveredCount == Count(r.value.samples, IsCovered())
      && r.value.validCount == Count(r.value.samples, IsKnown())
  {
    if !referenceUnit.Millimeter? { return Failure(ReferenceUnit); }
    if !scanUnit.Millimeter? { return Failure(ScanUnit); }
    if boundary != [] && |boundary| != |scan.points| { return Failure(BoundarySize); }
    var found := NearestNeighbors(scan, reference, search, limit, root, threads);
    if found.None? { return Failure(SearchFailed); }
    var f := CoverageAt(reference, boundary, found.value);
    var samples := seq(|reference.points|, _ => UNSEEN);
    var coveredCount, validCount := 0, 0;
    CountNone(samples, IsCovered());
    CountNone(samples, IsKnown());
    var order := ForEachLogicalIndex(|reference.points|, reference.grid);
    for k := 0 to |order|
      invariant Scattered(reference, k, f, UNSEEN, samples)
      invariant coveredCount == Count(samples, IsCovered()) && validCount == Count(samples, IsKnown())
    {
      var sample := f(order[k]);
      ScatterNext(reference, k, f, UNSEEN, samples);
      CountUpdate(samples, order[k], sample, IsCovered());
      CountUpdate(samples, order[k], sample, IsKnown());
      samples := samples[order[k] := sample];
      if sample.reason != Masked {
        validCount := validCount + 1;
      }
      if sample.reason == Covered {
        coveredCount := coveredCount + 1;
      }
    }
    ScatteredIsScatter(reference, f, UNSEEN, samples);
    r := Success(CoverageField(samples, coveredCount, validCount));
  }

  /** The one reason each stored reference point gets, and its distance. */
  lemma CoverageReasons<P>(reference: Surface<P>, boundary: seq<nat>, nearest: seq<Option<Neighbor>>, i: nat)
    requires WellFormed(reference) && i < |reference.points| == |nearest|
    ensures var sample := Scatter(reference, CoverageAt(reference, boundary, nearest), UNSEEN)[i];
      var present := IsLogical(reference, i) && ValidAt(reference, i);
      && (sample.reason == Masked <==> !present)
      && (sample.reason == Uncovered <==> present && nearest[i].None?)
      && if !present || nearest[i].None? then sample.distance == 0.0
         else
           var n := nearest[i].value.index;
           var marked := n < |boundary| && boundary[n] != 0;
           && (sample.reason == ScanBoundary <==> marked)
           && (sample.reason == Covered <==> !marked)
           && sample.distance == nearest[i].value.distance
  {
  }
}
