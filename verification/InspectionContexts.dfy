/**
  Whole inspections, with a reference prepared once or on every run (src/pipeline/inspection_pipeline.cpp).
  The stages before registration and between registration and comparison are given functions.
 */
module InspectionContexts {
  import opened Basics
  import opened Surfaces
  import opened Fields
  import opened Registration
  import opened Inspection

  /** A surface with normals and boundary marks. */
  datatype Located<Pt> = Located(surface: Surface<Pt>, boundary: seq<nat>)

  datatype RunError = StageFailed(reason: nat) | PoseDirection | RegistrationFailed(c: ContextError) | ComparisonFailed(e: ComparisonError) | CapacityRange | OverCapacity

  datatype Stages<!Pt, !Pose, !Cov, !Acc, !Twist> = Stages(
    configuration: Option<nat>,            // what validate_config finds wrong
    normalize: Surface<Pt> -> Result<Surface<Pt>, nat>,
    prepare: Surface<Pt> -> Result<Located<Pt>, nat>,
    setup: Located<Pt> -> Setup<Pt, Pose, Cov, Acc, Twist>,
    poseOk: (Located<Pt>, Located<Pt>, Pose) -> bool,
    gate: Solution<Pose, Acc> -> Result<bool, nat>,
    transform: (Located<Pt>, Solution<Pose, Acc>) -> Result<Surface<Pt>, nat>,
    scene: (Located<Pt>, Located<Pt>, Surface<Pt>) -> Scene<Pt>,
    root: real -> real)

  ghost predicate Sized<Pt>(s: Surface<Pt>) {
    WellFormed(s) && |s.points| <= SIZE_MAX
  }

  /** What the stages promise: surfaces stay well formed and keep their logical size, and the settings
      are the validated ones. */
  ghost predicate Sound<Pt(!new), Pose(!new), Cov, Acc(!new), Twist>(s: Stages<Pt, Pose, Cov, Acc, Twist>) {
    && (forall x {:trigger s.normalize(x)} :: Sized(x) && s.normalize(x).Success? ==>
          Sized(s.normalize(x).value) && Logical(s.normalize(x).value) == Logical(x))
    && (forall x {:trigger s.prepare(x)} :: Sized(x) && s.prepare(x).Success? ==>
          Sized(s.prepare(x).value.surface) && Logical(s.prepare(x).value.surface) == Logical(x))
    && (forall r {:trigger s.setup(r)} :: StableTies(s.setup(r).kernel) && s.setup(r).reference == r.surface)
    && (forall r: Located<Pt>, x: Located<Pt>, a: Surface<Pt> {:trigger s.scene(r, x, a)} :: Sized(r.surface) && Sized(a) ==> Ready(s.scene(r, x, a)))
    && (forall x: Located<Pt>, m: Solution<Pose, Acc> {:trigger s.transform(x, m)} :: Sized(x.surface) && s.transform(x, m).Success? ==> Sized(s.transform(x, m).value))
  }

  /** P01 to P03 for one surface. */
  function Locate<Pt, Pose, Cov, Acc, Twist>(s: Stages<Pt, Pose, Cov, Acc, Twist>, x: Surface<Pt>): Result<Located<Pt>, nat> {
    match s.normalize(x)
    case Failure(e) => Failure(e)
    case Success(n) => s.prepare(n)
  }

  /** From the registration's answer to the report. */
  ghost predicate IsInspection<Pt, Pose, Cov, Acc, Twist>(s: Stages<Pt, Pose, Cov, Acc, Twist>, reference: Located<Pt>, scan: Located<Pt>,
                                                          solved: Result<Solution<Pose, Acc>, ContextError>, r: Result<Report, RunError>) {
    match solved
    case Failure(e) => r == Failure(RegistrationFailed(e))
    case Success(solution) =>
      match s.gate(solution)
      case Failure(e) => r == Failure(StageFailed(e))
      case Success(passed) =>
        if !passed then r == Success(Report(Indeterminate, NO_DEVIATIONS, NO_COVERAGE, []))
        else match s.transform(scan, solution)
          case Failure(e) => r == Failure(StageFailed(e))
          case Success(aligned) =>
            var scene := s.scene(reference, scan, aligned);
            Ready(scene) &&
            (if Comparable(scene) then r.Success? && IsReport(true, scene, s.root, r.value)
             else r == Failure(ComparisonFailed(SceneFault(scene))))
  }

  /** Everything a run with a prepared reference determines. */
  ghost predicate IsRun<Pt, Pose, Cov, Acc, Twist>(s: Stages<Pt, Pose, Cov, Acc, Twist>, reference: Located<Pt>, x: Surface<Pt>, pose: Pose,
                                                   r: Result<Report, RunError>) {
    match Locate(s, x)
    case Failure(e) => r == Failure(StageFailed(e))
    case Success(scan) =>
      if !s.poseOk(reference, scan, pose) then
        r == Failure(PoseDirection)
      else
        && WellFormed(scan.surface)
        && IsInspection(s, reference, scan, ContextAnswer(s.setup(reference), Logical(scan.surface), scan.surface, pose), r)
  }

  /** What a run that ends in a report went through, and what its verdict says of the scan it aligned. */
  lemma RunMeans<Pt, Pose, Cov, Acc, Twist>(s: Stages<Pt, Pose, Cov, Acc, Twist>, reference: Located<Pt>, x: Surface<Pt>, pose: Pose,
                                            r: Result<Report, RunError>) returns (scan: Located<Pt>, solution: Solution<Pose, Acc>)
    requires IsRun(s, reference, x, pose, r) && r.Success?
    ensures s.normalize(x).Success? && s.prepare(s.normalize(x).value) == Success(scan) && s.poseOk(reference, scan, pose)
    ensures ContextAnswer(s.setup(reference), Logical(scan.surface), scan.surface, pose) == Success(solution) && s.gate(solution).Success?
    ensures s.gate(solution) == Success(false) ==> r.value.verdict == Indeterminate && r.value.regions == []
    ensures s.gate(solution) == Success(true) ==>
      && s.transform(scan, solution).Success?
      && var scene := s.scene(reference, scan, s.transform(scan, solution).value);
      Ready(scene) && Comparable(scene) && IsVerdict(scene, r.value.verdict)
  {
    scan := Locate(s, x).value;
    solution := ContextAnswer(s.setup(reference), Logical(scan.surface), scan.surface, pose).value;
    if s.gate(solution) == Success(true) {
      VerdictMeans(true, s.scene(reference, scan, s.transform(scan, solution).value), s.root, r.value);
    }
  }

  /** The same report up to the order and ids of the regions, or the same failure. */
  ghost predicate SameRun(a: Result<Report, RunError>, b: Result<Report, RunError>) {
    match (a, b)
    case (Success(x), Success(y)) => SameReport(x, y)
    case (Failure(e), Failure(f)) => e == f
    case _ => false
  }

  /** Two runs that satisfy the specification agree. */
  lemma RunsAgree<Pt, Pose, Cov, Acc, Twist>(s: Stages<Pt, Pose, Cov, Acc, Twist>, reference: Located<Pt>, x: Surface<Pt>, pose: Pose,
                                             a: Result<Report, RunError>, b: Result<Report, RunError>)
    requires IsRun(s, reference, x, pose, a) && IsRun(s, reference, x, pose, b)
    ensures SameRun(a, b)
  {
    var located := Locate(s, x);
    if located.Success? && s.poseOk(reference, located.value, pose) {
      var scan := located.value;
      var solved := ContextAnswer(s.setup(reference), Logical(scan.surface), scan.surface, pose);
      InspectionsAgree(s, reference, scan, solved, a, b);
    }
  }

  lemma InspectionsAgree<Pt, Pose, Cov, Acc, Twist>(s: Stages<Pt, Pose, Cov, Acc, Twist>, reference: Located<Pt>, scan: Located<Pt>,
                                                    solved: Result<Solution<Pose, Acc>, ContextError>,
                                                    a: Result<Report, RunError>, b: Result<Report, RunError>)
    requires IsInspection(s, reference, scan, solved, a) && IsInspection(s, reference, scan, solved, b)
    ensures SameRun(a, b)
  {
    if a.Success? && s.gate(solved.value).value {
      var scene := s.scene(reference, scan, s.transform(scan, solved.value).value);
      ReportsAgree(true, scene, s.root, a.value, b.value);
    }
  }

  /** run_impl from the gate on. */
  method Conclude<Pt(!new), Pose(!new), Cov, Acc(!new), Twist>(s: Stages<Pt, Pose, Cov, Acc, Twist>, reference: Located<Pt>, scan: Located<Pt>,
                                             solved: Result<Solution<Pose, Acc>, ContextError>) returns (r: Result<Report, RunError>)
    requires Sound(s) && Sized(reference.surface) && Sized(scan.surface)
    ensures IsInspection(s, reference, scan, solved, r)
  {
    if solved.Failure? {
      return Failure(RegistrationFailed(solved.error));
    }
    var gate := s.gate(solved.value);
    if gate.Failure? {
      return Failure(StageFailed(gate.error));
    }
    if !gate.value {
      return Success(Report(Indeterminate, NO_DEVIATIONS, NO_COVERAGE, []));
    }
    var aligned := s.transform(scan, solved.value);
    if aligned.Failure? {
      return Failure(StageFailed(aligned.error));
    }
    var report := Inspect(true, s.scene(reference, scan, aligned.value), s.root);
    if report.Failure? {
      return Failure(ComparisonFailed(report.error));
    }
    r := Success(report.value);
  }

  /** A reference prepared once, with its registration context. */
  class InspectionContext<Pt(==, !new), Pose(!new), Cov, Acc(!new), Twist> {
    const stages: Stages<Pt, Pose, Cov, Acc, Twist>
    const reference: Located<Pt>
    const registration: RegistrationContext<Pt, Pose, Cov, Acc, Twist>

    ghost predicate Valid()
      reads this, registration, registration.prepared, registration.prepared.executor
    {
      && registration.Valid() && Sound(stages) && Sized(reference.surface)
      && registration.setup == stages.setup(reference)
    }

    constructor (s: Stages<Pt, Pose, Cov, Acc, Twist>, located: Located<Pt>, context: RegistrationContext<Pt, Pose, Cov, Acc, Twist>)
      requires Sound(s) && Sized(located.surface) && context.Valid() && context.setup == s.setup(located)
      ensures Valid() && stages == s && reference == located && registration == context
    {
      stages, reference, registration := s, located, context;
    }

    /** InspectionContext::run: after any history, what a run with a fresh context would give. */
    method Run(x: Surface<Pt>, pose: Pose) returns (r: Result<Report, RunError>)
      requires Valid() && Sized(x)
      modifies registration.prepared, registration.prepared.executor
      ensures Valid()
      ensures Logical(x) > registration.capacity ==> r == Failure(OverCapacity)
      ensures Logical(x) <= registration.capacity ==> IsRun(stages, reference, x, pose, r)
    {
      if LogicalCount(|x.points|, x.grid) > registration.capacity {
        return Failure(OverCapacity);
      }
      var located := Locate(stages, x);
      if located.Failure? {
        return Failure(StageFailed(located.error));
      }
      var scan := located.value;
      if !stages.poseOk(reference, scan, pose) {
        return Failure(PoseDirection);
      }
      var solved := registration.Align(scan.surface, pose);
      r := Conclude(stages, reference, scan, solved);
    }
  }

  /** Why a pipeline run ends before registration: both surfaces are normalized before either is prepared. */
  ghost function EarlyFault<Pt, Pose, Cov, Acc, Twist>(s: Stages<Pt, Pose, Cov, Acc, Twist>, reference: Surface<Pt>, x: Surface<Pt>, pose: Pose)
    : (fault: Option<RunError>)
    ensures fault.None? ==> Locate(s, reference).Success? && Locate(s, x).Success?
  {
    match (s.normalize(reference), s.normalize(x))
    case (Failure(e), _) => Some(StageFailed(e))
    case (_, Failure(e)) => Some(StageFailed(e))
    case (Success(n), Success(m)) =>
      match (s.prepare(n), s.prepare(m))
      case (Failure(e), _) => Some(StageFailed(e))
      case (_, Failure(e)) => Some(StageFailed(e))
      case (Success(located), Success(scan)) =>
        if !s.poseOk(located, scan, pose) then Some(PoseDirection)
        else
          match CreateFault(s.setup(located), Logical(scan.surface))
          case Some(e) => Some(RegistrationFailed(e))
          case None => None
  }

  /** The stages in their order. */
  lemma EarlyFaultMeans<Pt, Pose, Cov, Acc, Twist>(s: Stages<Pt, Pose, Cov, Acc, Twist>, reference: Surface<Pt>, x: Surface<Pt>, pose: Pose)
    ensures var fault, n, m := EarlyFault(s, reference, x, pose), s.normalize(reference), s.normalize(x);
      && (n.Failure? ==> fault == Some(StageFailed(n.error)))
      && (n.Success? && m.Failure? ==> fault == Some(StageFailed(m.error)))
      && (n.Success? && m.Success? ==>
            var located, scan := s.prepare(n.value), s.prepare(m.value);
            && (located.Failure? ==> fault == Some(StageFailed(located.error)))
            && (located.Success? && scan.Failure? ==> fault == Some(StageFailed(scan.error)))
            && (located.Success? && scan.Success? ==>
                  var created := CreateFault(s.setup(located.value), Logical(scan.value.surface));
                  && (fault == Some(PoseDirection) <==> !s.poseOk(located.value, scan.value, pose))
                  && (fault != Some(PoseDirection) ==>
                        if created.Some? then fault == Some(RegistrationFailed(created.value)) else fault == None)))
  {
  }

  /** InspectionPipeline::run: everything prepared on the spot. */
  method RunPipeline<Pt(==, !new), Pose(!new), Cov, Acc(!new), Twist>(s: Stages<Pt, Pose, Cov, Acc, Twist>, reference: Surface<Pt>,
                                                                       x: Surface<Pt>, pose: Pose) returns (r: Result<Report, RunError>)
    requires Sound(s) && Sized(reference) && Sized(x)
    ensures match EarlyFault(s, reference, x, pose)
            case Some(e) => r == Failure(e)
            case None => IsRun(s, Locate(s, reference).value, x, pose, r)
  {
    var normalizedReference := s.normalize(reference);
    if normalizedReference.Failure? {
      return Failure(StageFailed(normalizedReference.error));
    }
    var normalizedScan := s.normalize(x);
    if normalizedScan.Failure? {
      return Failure(StageFailed(normalizedScan.error));
    }
    var preparedReference := s.prepare(normalizedReference.value);
    if preparedReference.Failure? {
      return Failure(StageFailed(preparedReference.error));
    }
    var preparedScan := s.prepare(normalizedScan.value);
    if preparedScan.Failure? {
      return Failure(StageFailed(preparedScan.error));
    }
    var located, scan := preparedReference.value, preparedScan.value;
    if !s.poseOk(located, scan, pose) {
      return Failure(PoseDirection);
    }
    var context := CreateContext(s.setup(located), LogicalCount(|scan.surface.points|, scan.surface.grid));
    if context.Failure? {
      return Failure(RegistrationFailed(context.error));
    }
    var solved := context.value.Align(scan.surface, pose);
    r := Conclude(s, located, scan, solved);
  }

  /** Why no context of some capacity can be opened on a reference. */
  ghost function OpenFault<Pt, Pose, Cov, Acc, Twist>(s: Stages<Pt, Pose, Cov, Acc, Twist>, reference: Surface<Pt>, capacity: nat): Option<RunError> {
    if capacity == 0 || capacity > INT32_MAX then Some(CapacityRange)
    else if s.configuration.Some? then Some(StageFailed(s.configuration.value))
    else match Locate(s, reference)
      case Failure(e) => Some(StageFailed(e))
      case Success(located) =>
        match CreateFault(s.setup(located), capacity)
        case Some(e) => Some(RegistrationFailed(e))
        case None => None
  }

  /** The checks in their order. */
  lemma OpenFaultMeans<Pt, Pose, Cov, Acc, Twist>(s: Stages<Pt, Pose, Cov, Acc, Twist>, reference: Surface<Pt>, capacity: nat)
    ensures var fault, n := OpenFault(s, reference, capacity), s.normalize(reference);
      && (fault == Some(CapacityRange) <==> !(0 < capacity <= 0x7fff_ffff))
      && (0 < capacity <= 0x7fff_ffff ==>
            if s.configuration.Some? then fault == Some(StageFailed(s.configuration.value))
            else if n.Failure? then fault == Some(StageFailed(n.error))
            else
              var located := s.prepare(n.value);
              if located.Failure? then fault == Some(StageFailed(located.error))
              else
                var created := CreateFault(s.setup(located.value), capacity);
                if created.Some? then fault == Some(RegistrationFailed(created.value)) else fault == None)
  {
  }

  ghost predicate Opens<Pt, Pose, Cov, Acc, Twist>(s: Stages<Pt, Pose, Cov, Acc, Twist>, reference: Surface<Pt>, capacity: nat) {
    OpenFault(s, reference, capacity).None?
  }

  /** InspectionContext::create. */
  method OpenContext<Pt(==, !new), Pose(!new), Cov, Acc(!new), Twist>(s: Stages<Pt, Pose, Cov, Acc, Twist>, reference: Surface<Pt>,
                                                                       capacity: nat)
    returns (r: Result<InspectionContext<Pt, Pose, Cov, Acc, Twist>, RunError>)
    requires Sound(s) && Sized(reference)
    ensures r.Success? <==> Opens(s, reference, capacity)
    ensures r.Failure? ==> OpenFault(s, reference, capacity) == Some(r.error)
    ensures r.Success? ==>
      && r.value.Valid() && r.value.stages == s && Success(r.value.reference) == Locate(s, reference)
      && r.value.registration.capacity == capacity
    ensures r.Success? ==>
      fresh(r.value.registration) && fresh(r.value.registration.prepared) && fresh(r.value.registration.prepared.executor)
  {
    if capacity == 0 || capacity > INT32_MAX {
      return Failure(CapacityRange);
    }
    if s.configuration.Some? {
      return Failure(StageFailed(s.configuration.value));
    }
    var located := Locate(s, reference);
    if located.Failure? {
      return Failure(StageFailed(located.error));
    }
    var registration := CreateContext(s.setup(located.value), capacity);
    if registration.Failure? {
      return Failure(RegistrationFailed(registration.error));
    }
    var context := new InspectionContext(s, located.value, registration.value);
    r := Success(context);
  }

  /** On a prepared reference a scan that fits fails as early as in a run from scratch, and for the same reason. */
  lemma EarlyAgrees<Pt(!new), Pose(!new), Cov, Acc(!new), Twist>(s: Stages<Pt, Pose, Cov, Acc, Twist>, reference: Surface<Pt>, capacity: nat,
                                                                  x: Surface<Pt>, pose: Pose, r: Result<Report, RunError>)
    requires Sound(s) && Sized(x) && Opens(s, reference, capacity) && 0 < Logical(x) <= capacity
    requires IsRun(s, Locate(s, reference).value, x, pose, r)
    ensures EarlyFault(s, reference, x, pose).Some? ==> r == Failure(EarlyFault(s, reference, x, pose).value)
  {
    var located := Locate(s, x);
    if located.Success? && s.poseOk(Locate(s, reference).value, located.value, pose) {
      assert Logical(located.value.surface) == Logical(x);
      assert CreateFault(s.setup(Locate(s, reference).value), Logical(x)).None?;
    }
  }

  /** The stages differ only in the numbers of threads they run on. */
  ghost predicate OtherThreads<Pt(!new), Pose(!new), Cov, Acc(!new), Twist>(s: Stages<Pt, Pose, Cov, Acc, Twist>, t: Stages<Pt, Pose, Cov, Acc, Twist>) {
    && t == s.(setup := t.setup, scene := t.scene)
    && (forall r {:trigger s.setup(r)} {:trigger t.setup(r)} :: s.setup(r).threads > 0 && t.setup(r).threads > 0
          && t.setup(r) == s.setup(r).(threads := t.setup(r).threads))
    && (forall r: Located<Pt>, x: Located<Pt>, a: Surface<Pt> {:trigger s.scene(r, x, a)} {:trigger t.scene(r, x, a)} ::
          s.scene(r, x, a).threads > 0 && t.scene(r, x, a).threads > 0
          && t.scene(r, x, a) == s.scene(r, x, a).(threads := t.scene(r, x, a).threads))
  }

  /** Threads do not show in an inspection. */
  lemma RunIgnoresThreads<Pt(!new), Pose(!new), Cov, Acc(!new), Twist>(s: Stages<Pt, Pose, Cov, Acc, Twist>, t: Stages<Pt, Pose, Cov, Acc, Twist>,
                                                                        reference: Located<Pt>, x: Surface<Pt>, pose: Pose, r: Result<Report, RunError>)
    requires OtherThreads(s, t)
    ensures IsRun(t, reference, x, pose, r) <==> IsRun(s, reference, x, pose, r)
  {
    var located := Locate(s, x);
    if located.Success? && s.poseOk(reference, located.value, pose) {
      var scan := located.value;
      var solved := ContextAnswer(s.setup(reference), Logical(scan.surface), scan.surface, pose);
      assert t.setup(reference).kernel == s.setup(reference).kernel;
      assert solved == ContextAnswer(t.setup(reference), Logical(scan.surface), scan.surface, pose);
      InspectionIgnoresThreads(s, t, reference, scan, solved, r);
    }
  }

  lemma InspectionIgnoresThreads<Pt(!new), Pose(!new), Cov, Acc(!new), Twist>(s: Stages<Pt, Pose, Cov, Acc, Twist>, t: Stages<Pt, Pose, Cov, Acc, Twist>,
                                                                               reference: Located<Pt>, scan: Located<Pt>,
                                                                               solved: Result<Solution<Pose, Acc>, ContextError>,
                                                                               r: Result<Report, RunError>)
    requires OtherThreads(s, t)
    ensures IsInspection(t, reference, scan, solved, r) <==> IsInspection(s, reference, scan, solved, r)
  {
    if solved.Success? && s.gate(solved.value) == Success(true) && s.transform(scan, solved.value).Success? {
      var aligned := s.transform(scan, solved.value).value;
      if Ready(s.scene(reference, scan, aligned)) {
        ReportIgnoresThreads(s.scene(reference, scan, aligned), t.scene(reference, scan, aligned).threads);
      }
    }
  }

  lemma EarlyIgnoresThreads<Pt(!new), Pose(!new), Cov, Acc(!new), Twist>(s: Stages<Pt, Pose, Cov, Acc, Twist>, t: Stages<Pt, Pose, Cov, Acc, Twist>,
                                                                          reference: Surface<Pt>, x: Surface<Pt>, pose: Pose)
    requires OtherThreads(s, t)
    ensures EarlyFault(t, reference, x, pose) == EarlyFault(s, reference, x, pose)
  {
    var located, scan := Locate(s, reference), Locate(s, x);
    if located.Success? && scan.Success? {
      CreateIgnoresThreads(s.setup(located.value), t.setup(located.value), Logical(scan.value.surface));
    }
  }

  lemma CreateIgnoresThreads<Pt, Pose, Cov, Acc, Twist>(s: Setup<Pt, Pose, Cov, Acc, Twist>, t: Setup<Pt, Pose, Cov, Acc, Twist>, capacity: nat)
    requires t == s.(threads := t.threads) && s.threads > 0 && t.threads > 0
    ensures CreateFault(t, capacity) == CreateFault(s, capacity)
  {
  }

  /** Any history of scans leaves the context as good as new. */
  method RunHistory<Pt(==, !new), Pose(!new), Cov, Acc(!new), Twist>(context: InspectionContext<Pt, Pose, Cov, Acc, Twist>,
                                                                      history: seq<Request<Pt, Pose>>)
    requires context.Valid() && forall i :: 0 <= i < |history| ==> Sized(history[i].scan)
    modifies context.registration.prepared, context.registration.prepared.executor
    ensures context.Valid()
  {
    for i := 0 to |history|
      invariant context.Valid()
    {
      assert Sized(history[i].scan);
      var _ := context.Run(history[i].scan, history[i].initial);
    }
  }

  /** Inspecting through a context, after any history of accepted and rejected scans, agrees with inspecting
      from scratch on any number of threads. */
  method ContextAgrees<Pt(==, !new), Pose(!new), Cov, Acc(!new), Twist>(s: Stages<Pt, Pose, Cov, Acc, Twist>, t: Stages<Pt, Pose, Cov, Acc, Twist>,
                                                                         reference: Surface<Pt>, capacity: nat, history: seq<Request<Pt, Pose>>,
                                                                         request: Request<Pt, Pose>)
    returns (reused: Result<Report, RunError>, oneShot: Result<Report, RunError>)
    requires Sound(s) && Sound(t) && OtherThreads(s, t) && Sized(reference) && Opens(s, reference, capacity)
    requires Sized(request.scan) && forall i :: 0 <= i < |history| ==> Sized(history[i].scan)
    ensures Logical(request.scan) <= capacity ==> SameRun(reused, oneShot)
    ensures Logical(request.scan) > capacity ==> reused == Failure(OverCapacity)
  {
    var context := OpenContext(s, reference, capacity);
    RunHistory(context.value, history);
    reused := context.value.Run(request.scan, request.initial);
    oneShot := RunPipeline(t, reference, request.scan, request.initial);
    if Logical(request.scan) <= capacity {
      PositiveSize(request.scan);
      EarlyAgrees(s, reference, capacity, request.scan, request.initial, reused);
      EarlyIgnoresThreads(s, t, reference, request.scan, request.initial);
      if EarlyFault(s, reference, request.scan, request.initial).None? {
        RunIgnoresThreads(s, t, Locate(s, reference).value, request.scan, request.initial, oneShot);
        RunsAgree(s, Locate(s, reference).value, request.scan, request.initial, reused, oneShot);
      }
    }
  }
}
