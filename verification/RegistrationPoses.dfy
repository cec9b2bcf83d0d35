/**
  The rigid-motion invariant over whole registration runs: from an oriented initial pose with an exact
  last row, every iterate stays oriented, and the pose delivered is a rotation and a translation.
 */
module RegistrationPoses {
  import opened Basics
  import opened Surfaces
  import opened RigidMotion
  import opened Registration
  import K = Kernels
  import O = Objective

  datatype Twist = Twist(rotation: Vector, translation: Vector)

  const POSE_TOLERANCE := 0.000001

  /** The pose operations of the kernel are those of the source. */
  ghost predicate UsesRigidMotion<Pt, Cov, Acc>(k: Kernel<Pt, Matrix, Cov, Acc, Twist>, f: Functions)
    requires Proper(f)
  {
    && (forall t, m :: k.compose(t, m) == Product(Delta(f, t.rotation, t.translation), m))
    && (forall m :: k.finish(m) == Orthonormalize(f, m))
    && (forall m :: k.rigid(m) == Accepted(m, POSE_TOLERANCE))
  }

  /** A step moves each point as the increment moves what the pose made of it. */
  lemma StepMoves<Pt, Cov, Acc>(k: Kernel<Pt, Matrix, Cov, Acc, Twist>, f: Functions, t: Twist, pose: Matrix, p: Vector)
    requires Proper(f) && UsesRigidMotion(k, f) && pose.last == LAST
    ensures Apply(k.compose(t, pose), p) == Apply(Delta(f, t.rotation, t.translation), Apply(pose, p))
  {
    ProductComposes(Delta(f, t.rotation, t.translation), pose, p);
  }

  lemma IteratesOrientable<Pt, Cov, Acc>(k: Kernel<Pt, Matrix, Cov, Acc, Twist>, f: Functions, scan: Cloud<Pt>,
                                         covariances: seq<Cov>, initial: Matrix, n: nat)
    requires Proper(f) && UsesRigidMotion(k, f) && Orientable(initial)
    ensures var r := Iterations(k, scan, covariances, initial, n); r.Success? ==> Orientable(r.value.pose)
  {
    var p := (m: Matrix) => Orientable(m);
    forall t, m | p(m)
      ensures p(k.compose(t, m))
    {
      IncrementKeeps(f, t.rotation, t.translation, m);
    }
    IteratesKeep(k, scan, covariances, initial, n, p);
  }

  lemma FinishedIsRigid(f: Functions, m: Matrix)
    requires Proper(f) && Orientable(m)
    ensures Rigid(Orthonormalize(f, m)) && Accepted(Orthonormalize(f, m), POSE_TOLERANCE)
  {
    IndependentColumns(m);
    OrthonormalizeIsRigid(f, m);
    RigidIsAccepted(Orthonormalize(f, m));
  }

  /** What an initial pose needs: independent columns and a last row near (0, 0, 0, 1) whose first two entries are
      exactly zero. */
  predicate Sturdy(m: Matrix) {
    Independent(m) && m.last.x == 0.0 && m.last.y == 0.0 && LastNear(m, POSE_TOLERANCE)
  }

  /** Poses with an exact last row are sturdy, and so are accepted ones whose last row begins with two zeros. */
  lemma AcceptedIsSturdy(m: Matrix)
    ensures Orientable(m) ==> Sturdy(m)
    ensures Accepted(m, POSE_TOLERANCE) ==> (Sturdy(m) <==> m.last.x == 0.0 && m.last.y == 0.0)
    ensures Accepted(m, POSE_TOLERANCE) && m.last == LAST ==> Orientable(m)
  {
    if Orientable(m) {
      IndependentColumns(m);
    }
    if Accepted(m, POSE_TOLERANCE) {
      AcceptedIsIndependent(m, POSE_TOLERANCE);
    }
  }

  /** The default tolerance of RigidTransform::create accepts others. */
  lemma AcceptedNotSturdy()
    ensures var m := IDENTITY.(last := Bottom(0.000000001, 0.0, 0.0, 1.0)); Accepted(m, 0.000000001) && !Sturdy(m)
  {
    var m := IDENTITY.(last := Bottom(0.000000001, 0.0, 0.0, 1.0));
    RotationIsAccepted(m, 0.000000001);
  }

  /** What is true of every iterate. */
  predicate Keeps(m: Matrix, last: Bottom) {
    Independent(m) && m.last == last
  }

  /** Finishing a matrix gives an accepted pose exactly for independent columns and a near last row. */
  lemma FinishedIsAccepted(f: Functions, m: Matrix)
    requires Proper(f)
    ensures Accepted(Orthonormalize(f, m), POSE_TOLERANCE) <==> Independent(m) && LastNear(m, POSE_TOLERANCE)
    ensures Independent(m) && m.last == LAST ==> Rigid(Orthonormalize(f, m))
  {
    OrthonormalizeIsRotation(f, m);
    var n := Orthonormalize(f, m);
    if Independent(m) {
      RotationIsAccepted(n, POSE_TOLERANCE);
    } else {
      ZeroColumnIsRejected(n, POSE_TOLERANCE);
    }
  }

  lemma {:induction false} ComposedKeeps<Pt, Cov, Acc>(k: Kernel<Pt, Matrix, Cov, Acc, Twist>, f: Functions, initial: Matrix, twists: seq<Twist>)
    requires Proper(f) && UsesRigidMotion(k, f) && Sturdy(initial)
    ensures Keeps(Composed(k, twists, initial), initial.last)
  {
    if twists != [] {
      var n := |twists| - 1;
      ComposedKeeps(k, f, initial, twists[..n]);
      IncrementKeepsIndependent(f, twists[n].rotation, twists[n].translation, Composed(k, twists[..n], initial));
    }
  }

  /** No twists whatever lead from an initial pose to a rejected one exactly when it is sturdy. */
  lemma SturdyIsExact<Pt, Cov, Acc>(k: Kernel<Pt, Matrix, Cov, Acc, Twist>, f: Functions, initial: Matrix)
    requires Proper(f) && UsesRigidMotion(k, f)
    ensures (forall twists: seq<Twist> :: k.rigid(k.finish(Composed(k, twists, initial)))) <==> Sturdy(initial)
  {
    if Sturdy(initial) {
      forall twists: seq<Twist>
        ensures k.rigid(k.finish(Composed(k, twists, initial)))
      {
        ComposedKeeps(k, f, initial, twists);
        FinishedIsAccepted(f, Composed(k, twists, initial));
      }
    } else {
      var twists := Destroying(k, f, initial);
    }
  }

  /** Twists that lead to a rejected pose. */
  lemma Destroying<Pt, Cov, Acc>(k: Kernel<Pt, Matrix, Cov, Acc, Twist>, f: Functions, initial: Matrix) returns (twists: seq<Twist>)
    requires Proper(f) && UsesRigidMotion(k, f) && !Sturdy(initial)
    ensures !k.rigid(k.finish(Composed(k, twists, initial)))
  {
    if !Independent(initial) || !LastNear(initial, POSE_TOLERANCE) {
      twists := [];
      FinishedIsAccepted(f, initial);
      assert Composed(k, twists, initial) == initial;
    } else {
      var t := TranslationDestroys(f, initial);
      var twist := Twist(Vector(0.0, 0.0, 0.0), t);
      twists := [twist];
      assert twists[..0] == [] && Composed(k, twists[..0], initial) == initial;
      FinishedIsAccepted(f, k.compose(twist, initial));
    }
  }

  /** No run from a sturdy pose ends in a rejected one, whatever twists the solver returned. */
  lemma RunsEndRigid<Pt, Cov, Acc>(k: Kernel<Pt, Matrix, Cov, Acc, Twist>, f: Functions, scan: Surface<Pt>, initial: Matrix)
    requires Proper(f) && UsesRigidMotion(k, f) && Sturdy(initial) && WellFormed(scan)
    ensures var r := Aligned(k, scan, initial);
      && r != Failure(NotRigid)
      && (r.Success? ==> Accepted(r.value.pose, POSE_TOLERANCE))
      && (r.Success? && initial.last == LAST ==> Rigid(r.value.pose) && Product(InverseRigid(r.value.pose), r.value.pose) == IDENTITY)
  {
    var r := Aligned(k, scan, initial);
    FailureMeans(k, scan, initial);
    if r.Success? {
      var covariances, twists, last := SolutionMeans(k, scan, initial);
      ComposedKeeps(k, f, initial, twists);
      FinishedIsAccepted(f, Composed(k, twists, initial));
      if initial.last == LAST {
        InverseIsLeft(r.value.pose);
      }
    } else if r == Failure(NotRigid) {
      var cloud := Extract(scan, k.unit);
      var twists := CompletedCountsTwists(k, cloud, ScanCovariances(k, cloud).value, initial, k.maxIterations);
      ComposedKeeps(k, f, initial, twists);
      FinishedIsAccepted(f, Composed(k, twists, initial));
    }
  }

  // ----- the kernels and the poses -----

  function RowMajor(m: Matrix): (values: seq<real>)
    ensures |values| == 16
  {
    [m.x.x, m.y.x, m.z.x, m.t.x,
     m.x.y, m.y.y, m.z.y, m.t.y,
     m.x.z, m.y.z, m.z.z, m.t.z,
     m.last.x, m.last.y, m.last.z, m.last.w]
  }

  function PointOf(v: Vector): K.Point<real> {
    K.Point(v.x, v.y, v.z)
  }

  lemma CoordinateIsAffine(root: real -> real, m: seq<real>, row: nat, p: K.Point<real>)
    requires |m| == 16 && row < 3
    ensures K.Coordinate(O.RealOps(root), m, row, p) ==
      Affine(m[4 * row], m[4 * row + 1], m[4 * row + 2], m[4 * row + 3], p.x, p.y, p.z)
  {
  }

  /** In exact arithmetic the transform kernel applies the pose. */
  lemma KernelIsApply(root: real -> real, m: Matrix, p: Vector)
    ensures K.Transformed(O.RealOps(root), RowMajor(m), PointOf(p)) == PointOf(Apply(m, p))
  {
    CoordinateIsAffine(root, RowMajor(m), 0, PointOf(p));
    CoordinateIsAffine(root, RowMajor(m), 1, PointOf(p));
    CoordinateIsAffine(root, RowMajor(m), 2, PointOf(p));
  }

  predicate At3(p: K.Point<real>, a: real, b: real, c: real) {
    p.x == a && p.y == b && p.z == c
  }

  lemma AlongStep(p: K.Point<real>, x: seq<real>, n: nat, a0: real, a1: real, a2: real, u0: real, u1: real, u2: real, s: real)
    requires |x| == 6 && 1 <= n <= 6 && At3(O.Along(p, x, n - 1), a0, a1, a2)
    requires At3(O.Column(p, n - 1), u0, u1, u2) && x[n - 1] == s
    ensures At3(O.Along(p, x, n), a0 + Times(s, u0), a1 + Times(s, u1), a2 + Times(s, u2))
  {
  }

  lemma TimesSigns(s: real, u: real)
    ensures Times(s, 0.0) == 0.0 && Times(s, -u) == -Times(s, u) && Times(s, 1.0) == s
  {
  }

  lemma AlongRotation(p: K.Point<real>, x: seq<real>, a: real, b: real, c: real)
    requires |x| == 6 && a == Times(x[1], p.z) - Times(x[2], p.y)
    requires b == Times(x[2], p.x) - Times(x[0], p.z) && c == Times(x[0], p.y) - Times(x[1], p.x)
    ensures At3(O.Along(p, x, 3), a, b, c)
  {
    TimesSigns(x[0], p.z);
    TimesSigns(x[0], p.y);
    TimesSigns(x[1], p.z);
    TimesSigns(x[1], p.x);
    TimesSigns(x[2], p.y);
    TimesSigns(x[2], p.x);
    AlongStep(p, x, 1, 0.0, 0.0, 0.0, 0.0, -p.z, p.y, x[0]);
    AlongStep(p, x, 2, 0.0, -Times(x[0], p.z), Times(x[0], p.y), p.z, 0.0, -p.x, x[1]);
    AlongStep(p, x, 3, Times(x[1], p.z), -Times(x[0], p.z), Times(x[0], p.y) - Times(x[1], p.x), -p.y, p.x, 0.0, x[2]);
  }

  lemma AlongTranslation(p: K.Point<real>, x: seq<real>, a: real, b: real, c: real)
    requires |x| == 6 && At3(O.Along(p, x, 3), a, b, c)
    ensures At3(O.Along(p, x, 6), a + x[3], b + x[4], c + x[5])
  {
    TimesSigns(x[3], 0.0);
    TimesSigns(x[4], 0.0);
    TimesSigns(x[5], 0.0);
    AlongStep(p, x, 4, a, b, c, 1.0, 0.0, 0.0, x[3]);
    AlongStep(p, x, 5, a + x[3], b, c, 0.0, 1.0, 0.0, x[4]);
    AlongStep(p, x, 6, a + x[3], b + x[4], c, 0.0, 0.0, 1.0, x[5]);
  }

  /** The first-order increment on plain reals. */
  lemma FirstOrderReals(x: real, y: real, z: real, u: real, v: real, w: real, px: real, py: real, pz: real)
    ensures Affine(1.0, -z, y, u, px, py, pz) == px + (Times(y, pz) - Times(z, py) + u)
    ensures Affine(z, 1.0, -x, v, px, py, pz) == py + (Times(z, px) - Times(x, pz) + v)
    ensures Affine(-y, x, 1.0, w, px, py, pz) == pz + (Times(x, py) - Times(y, px) + w)
  {
  }

  lemma DeltaFirstOrder(f: Functions, r: Vector, u: Vector)
    requires Proper(f) && Norm(f, r) < SMALL_ANGLE
    ensures Delta(f, r, u) == Matrix(Vector(1.0, r.z, -r.y), Vector(-r.z, 1.0, r.x), Vector(r.y, -r.x, 1.0), u, LAST)
  {
  }

  /** The Jacobian of the objective is that of the increment: a first-order increment moves a point by J times
      its twist. */
  lemma JacobianIsFirstOrder(f: Functions, t: Twist, p: Vector)
    requires Proper(f) && Norm(f, t.rotation) < SMALL_ANGLE
    ensures var x := [t.rotation.x, t.rotation.y, t.rotation.z, t.translation.x, t.translation.y, t.translation.z];
      var d, q := O.Along(PointOf(p), x, 6), Apply(Delta(f, t.rotation, t.translation), p);
      q == Vector(p.x + d.x, p.y + d.y, p.z + d.z)
  {
    var r, u := t.rotation, t.translation;
    var x := [r.x, r.y, r.z, u.x, u.y, u.z];
    var a := Times(r.y, p.z) - Times(r.z, p.y);
    var b := Times(r.z, p.x) - Times(r.x, p.z);
    var c := Times(r.x, p.y) - Times(r.y, p.x);
    AlongRotation(PointOf(p), x, a, b, c);
    AlongTranslation(PointOf(p), x, a, b, c);
    DeltaFirstOrder(f, r, u);
    FirstOrderApply(r, u, p);
  }

  lemma FirstOrderApply(r: Vector, u: Vector, p: Vector)
    ensures Apply(Matrix(Vector(1.0, r.z, -r.y), Vector(-r.z, 1.0, r.x), Vector(r.y, -r.x, 1.0), u, LAST), p) == Vector(
      p.x + (Times(r.y, p.z) - Times(r.z, p.y) + u.x),
      p.y + (Times(r.z, p.x) - Times(r.x, p.z) + u.y),
      p.z + (Times(r.x, p.y) - Times(r.y, p.x) + u.z))
  {
    FirstOrderReals(r.x, r.y, r.z, u.x, u.y, u.z, p.x, p.y, p.z);
  }
}
