/**
  The metrics a registration reports (src/backends/pcl/pcl_registration_backend.cpp and RegistrationMetrics of
  include/pointcloud_ad/registration.hpp), over exact reals: a solved registration is never refused for them.
 */
module RegistrationMetrics {
  import opened Basics
  import opened Surfaces
  import opened RigidMotion
  import opened Registration
  import opened RegistrationEquations

  /** What is used of the arc cosine. */
  ghost predicate IsArc(arc: real -> real, pi: real) {
    pi > 0.0 && forall c: real {:trigger arc(c)} :: -1.0 <= c <= 1.0 ==> 0.0 <= arc(c) <= pi
  }

  datatype Numbers = Numbers(fitness: Option<real>, rmse: Option<real>, translation: Option<real>, rotation: Option<real>)

  datatype Metrics = Metrics(pose: Matrix, convergence: Convergence, iterations: nat, pairs: nat,
                             fitness: real, rmse: real, translation: real, rotation: real)

  datatype MetricsError = BadFitness | BadRmse | BadTranslation | BadRotation

  /** A finite number of at least zero. */
  predicate NonNegative(x: Option<real>) {
    x.Some? && x.value >= 0.0
  }

  predicate Within(x: Option<real>, limit: real) {
    NonNegative(x) && x.value <= limit
  }

  /** RegistrationMetrics::create; None stands for a double that is not finite. */
  method CreateMetrics(pose: Matrix, convergence: Convergence, iterations: nat, pairs: nat, n: Numbers)
    returns (r: Result<Metrics, MetricsError>)
    ensures r == Failure(BadFitness) <==> !Within(n.fitness, 1.0)
    ensures r == Failure(BadRmse) <==> Within(n.fitness, 1.0) && !NonNegative(n.rmse)
    ensures r == Failure(BadTranslation) <==> Within(n.fitness, 1.0) && NonNegative(n.rmse) && !NonNegative(n.translation)
    ensures r.Success? <==> Within(n.fitness, 1.0) && NonNegative(n.rmse) && NonNegative(n.translation) && Within(n.rotation, 180.0)
    ensures r.Success? ==>
      r.value == Metrics(pose, convergence, iterations, pairs, n.fitness.value, n.rmse.value, n.translation.value, n.rotation.value)
  {
    if !Within(n.fitness, 1.0) {
      return Failure(BadFitness);
    }
    if !NonNegative(n.rmse) {
      return Failure(BadRmse);
    }
    if !NonNegative(n.translation) {
      return Failure(BadTranslation);
    }
    if !Within(n.rotation, 180.0) {
      return Failure(BadRotation);
    }
    r := Success(Metrics(pose, convergence, iterations, pairs, n.fitness.value, n.rmse.value, n.translation.value, n.rotation.value));
  }

  function Clamped(x: real): real {
    if x < -1.0 then -1.0 else if x > 1.0 then 1.0 else x
  }

  /** The final pose as seen from the initial one. */
  function Relative(initial: Matrix, pose: Matrix): Matrix {
    Product(pose, InverseRigid(initial))
  }

  function Degrees(arc: real -> real, pi: real, m: Matrix): real
    requires pi != 0.0
  {
    arc(Clamped((m.x.x + m.y.y + m.z.z - 1.0) / 2.0)) * 180.0 / pi
  }

  lemma IdentityApplied(p: Vector)
    ensures Apply(IDENTITY, p) == p
  {
  }

  /** The relative pose takes what the initial pose gives to what the final pose gives. */
  lemma RelativeMeans(initial: Matrix, pose: Matrix, p: Vector)
    requires Rigid(initial)
    ensures Apply(Relative(initial, pose), Apply(initial, p)) == Apply(pose, p)
  {
    ProductComposes(pose, InverseRigid(initial), Apply(initial, p));
    ProductComposes(InverseRigid(initial), initial, p);
    InverseIsLeft(initial);
    IdentityApplied(p);
  }

  lemma CosineInRange(c: real, s: real)
    requires c * c + s * s == 1.0
    ensures -1.0 <= c <= 1.0
  {
    SquareZero(s);
    if c > 1.0 {
      Larger(c);
    } else if c < -1.0 {
      Larger(-c);
    }
  }

  lemma Larger(c: real)
    requires c > 1.0
    ensures c * c > 1.0
  {
  }

  lemma TraceReals(c: real, x: real, y: real, z: real)
    requires Dot3(x, y, z, x, y, z) == 1.0
    ensures (c + (1.0 - c) * x * x) + (c + (1.0 - c) * y * y) + (c + (1.0 - c) * z * z) == 1.0 + 2.0 * c
  {
    assert (1.0 - c) * x * x + (1.0 - c) * y * y + (1.0 - c) * z * z == (1.0 - c) * (x * x + y * y + z * z);
  }

  lemma TurnTrace(c: real, s: real, x: real, y: real, z: real, t: Vector)
    requires Dot3(x, y, z, x, y, z) == 1.0
    ensures var m := Turn(c, s, 1.0 - c, x, y, z, t); m.x.x + m.y.y + m.z.z == 1.0 + 2.0 * c
  {
    TraceReals(c, x, y, z);
  }

  /** An increment of ordinary size, up to half a turn, is reported as the angle it turns by, in degrees. */
  lemma DegreesMeans(f: Functions, arc: real -> real, pi: real, rotation: Vector, translation: Vector)
    requires Proper(f) && IsArc(arc, pi) && SMALL_ANGLE <= Norm(f, rotation) <= pi
    requires forall a {:trigger f.cos(a)} :: 0.0 <= a <= pi ==> arc(f.cos(a)) == a
    ensures Degrees(arc, pi, Delta(f, rotation, translation)) == Norm(f, rotation) * 180.0 / pi
  {
    var angle := Norm(f, rotation);
    Direction(f, rotation);
    CosineInRange(f.cos(angle), f.sin(angle));
    TurnTrace(f.cos(angle), f.sin(angle), rotation.x / angle, rotation.y / angle, rotation.z / angle, translation);
  }

  lemma AngleInRange(a: real, pi: real)
    requires 0.0 <= a <= pi && pi > 0.0
    ensures 0.0 <= a * 180.0 / pi <= 180.0
  {
    PositiveQuotient(a * 180.0, pi);
    var q := a * 180.0 / pi;
    if q > 180.0 {
      Above(q, pi);
    }
  }

  lemma Above(q: real, pi: real)
    requires q > 180.0 && pi > 0.0
    ensures q * pi > 180.0 * pi
  {
  }

  function RootMean(f: Functions, sum: real, pairs: nat): real {
    if pairs == 0 then 0.0 else f.root(sum / pairs as real)
  }

  /** The root mean square: zero without pairs. */
  ghost predicate IsRootMean(rmse: real, sum: real, pairs: nat) {
    rmse >= 0.0 && (if pairs == 0 then rmse == 0.0 else Times(Times(rmse, rmse), pairs as real) == sum)
  }

  lemma RootMeanMeans(f: Functions, sum: real, pairs: nat)
    requires IsRoot(f.root) && sum >= 0.0
    ensures IsRootMean(RootMean(f, sum, pairs), sum, pairs)
  {
    if pairs != 0 {
      PositiveQuotient(sum, pairs as real);
    }
  }

  /** The nonnegative number whose square is |v|^2. */
  ghost predicate IsLength(n: real, v: Vector) {
    n >= 0.0 && Times(n, n) == Dot(v, v)
  }

  /** Every number is in its range. */
  predicate InRange(m: Metrics) {
    0.0 <= m.fitness <= 1.0 && m.rmse >= 0.0 && m.translation >= 0.0 && 0.0 <= m.rotation <= 180.0
  }

  /** The sums a registration ends with. */
  ghost predicate Summed(sum: real, pairs: nat, points: nat) {
    sum >= 0.0 && pairs <= points && points > 0
  }

  lemma NumbersInRange(f: Functions, arc: real -> real, pi: real, sum: real, pairs: nat, points: nat, relative: Matrix)
    requires IsRoot(f.root) && IsArc(arc, pi) && Summed(sum, pairs, points)
    ensures 0.0 <= pairs as real / points as real <= 1.0 && Times(pairs as real / points as real, points as real) == pairs as real
    ensures IsRootMean(RootMean(f, sum, pairs), sum, pairs) && IsLength(Norm(f, relative.t), relative.t)
    ensures 0.0 <= Degrees(arc, pi, relative) <= 180.0
  {
    FractionMeans(pairs, points);
    RootMeanMeans(f, sum, pairs);
    SquaresNonNegative(relative.t.x, relative.t.y, relative.t.z);
    AngleInRange(arc(Clamped((relative.x.x + relative.y.y + relative.z.z - 1.0) / 2.0)), pi);
  }

  /** The numbers of a solution. They are never refused. */
  method Measure(f: Functions, arc: real -> real, pi: real, sum: real, pairs: nat, points: nat, initial: Matrix,
                 pose: Matrix, convergence: Convergence, iterations: nat) returns (r: Result<Metrics, MetricsError>)
    requires IsRoot(f.root) && IsArc(arc, pi) && Summed(sum, pairs, points)
    ensures r.Success? && InRange(r.value) && r.value.pose == pose && r.value.convergence == convergence
    ensures r.value.iterations == iterations && r.value.pairs == pairs
    ensures Times(r.value.fitness, points as real) == pairs as real && IsRootMean(r.value.rmse, sum, pairs)
    ensures IsLength(r.value.translation, Relative(initial, pose).t) && r.value.rotation == Degrees(arc, pi, Relative(initial, pose))
  {
    var fitness := pairs as real / points as real;
    var rmse := RootMean(f, sum, pairs);
    var relative := Relative(initial, pose);
    NumbersInRange(f, arc, pi, sum, pairs, points, relative);
    r := CreateMetrics(pose, convergence, iterations, pairs,
                       Numbers(Some(fitness), Some(rmse), Some(Norm(f, relative.t)), Some(Degrees(arc, pi, relative))));
  }

  /** The sums of a solved registration are such sums. */
  lemma SolutionIsSummed<Pt(!new), Cov(!new), Acc(!new), T>(k: Kernel<Pt, Matrix, Cov, Acc, T>, root: real -> real,
                                                            u: Readout<Pt, Matrix, Cov, Acc>, scan: Surface<Pt>, initial: Matrix)
    requires UsesMetrics(k, root, u) && WellFormed(scan) && Aligned(k, scan, initial).Success?
    ensures var s := Aligned(k, scan, initial).value; Summed(u.residual(s.totals), k.pairs(s.totals), s.points)
  {
    var cloud := Extract(scan, k.unit);
    var covariances := ScanCovariances(k, cloud);
    var s := Aligned(k, scan, initial).value;
    MetricsMean(k, root, u, cloud, covariances.value, s.pose);
  }

  /** align, metrics included: it fails only where the registration itself does. */
  method AlignAndMeasure<Pt(==, !new), Cov(!new), Acc(!new), T>(prepared: Prepared<Pt, Matrix, Cov, Acc, T>, f: Functions, arc: real -> real,
                                                                pi: real, u: Readout<Pt, Matrix, Cov, Acc>, scan: Surface<Pt>, initial: Matrix)
    returns (r: Result<Metrics, AlignError>)
    requires prepared.Valid() && WellFormed(scan) && IsRoot(f.root) && IsArc(arc, pi) && UsesMetrics(prepared.kernel, f.root, u)
    modifies prepared, prepared.executor
    ensures prepared.Valid()
    ensures match Aligned(prepared.kernel, scan, initial)
            case Failure(e) => r == Failure(e)
            case Success(s) =>
              && r.Success? && InRange(r.value) && r.value.pose == s.pose
              && r.value.convergence == s.convergence && r.value.iterations == s.iterations
              && r.value.pairs == prepared.kernel.pairs(s.totals)
              && Times(r.value.fitness, s.points as real) == r.value.pairs as real
              && IsRootMean(r.value.rmse, u.residual(s.totals), r.value.pairs)
              && IsLength(r.value.translation, Relative(initial, s.pose).t)
              && r.value.rotation == Degrees(arc, pi, Relative(initial, s.pose))
  {
    var solved := prepared.Align(scan, initial);
    if solved.Failure? {
      return Failure(solved.error);
    }
    var s := solved.value;
    SolutionIsSummed(prepared.kernel, f.root, u, scan, initial);
    var measured := Measure(f, arc, pi, u.residual(s.totals), prepared.kernel.pairs(s.totals), s.points, initial, s.pose,
                            s.convergence, s.iterations);
    r := Success(measured.value);
  }
}
