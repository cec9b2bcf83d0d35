/**
  What the objective kernel computes, over exact reals: weighted normal equations of one 3 x 3
  information matrix, in all three registration modes.
 */
module Objective {
  import opened Basics
  import opened Kernels

  /** The operations of exact arithmetic. */
  function RealOps(root: real -> real): Ops<real> {
    Ops(0.0, 1.0, (a: real, b: real) => a + b, (a: real, b: real) => a - b, (a: real, b: real) => a * b,
        (a: real, b: real) => if b == 0.0 then 0.0 else a / b, (a: real) => -a, (a: real) => if a < 0.0 then -a else a,
        root, (a: real, b: real) => a <= b)
  }

  // ----- the residual and the Huber weight -----

  function NormalDot(nx: real, ny: real, nz: real, x: real, y: real, z: real): real {
    nx * x + ny * y + nz * z
  }

  lemma PlaneResidual(o: Ops<real>, root: real -> real, v: Input<real>)
    requires o == RealOps(root) && v.plane
    ensures var e, n := ErrorOf(o, v), v.normal; Residual(o, v) == NormalDot(n.x, n.y, n.z, e.x, e.y, e.z)
  {
  }

  lemma PointResidual(o: Ops<real>, root: real -> real, v: Input<real>)
    requires o == RealOps(root) && !v.plane
    ensures var e := ErrorOf(o, v); Residual(o, v) == root(NormalDot(e.x, e.y, e.z, e.x, e.y, e.z))
  {
  }

  lemma SumOfSquares(x: real, y: real, z: real)
    ensures NormalDot(x, y, z, x, y, z) >= 0.0
  {
  }

  /** The residual of a scan point p against a reference point q: its signed distance to the plane through q, or its
      distance to q. */
  lemma ResidualMeans(root: real -> real, v: Input<real>)
    requires IsRoot(root)
    ensures var p, q, n, r := v.point, v.reference, v.normal, Residual(RealOps(root), v);
      if v.plane then r == NormalDot(n.x, n.y, n.z, p.x - q.x, p.y - q.y, p.z - q.z)
      else r >= 0.0 && Times(r, r) == NormalDot(p.x - q.x, p.y - q.y, p.z - q.z, p.x - q.x, p.y - q.y, p.z - q.z)
  {
    if v.plane {
      PlaneResidual(RealOps(root), root, v);
    } else {
      var e := ErrorOf(RealOps(root), v);
      PointResidual(RealOps(root), root, v);
      SumOfSquares(e.x, e.y, e.z);
    }
  }

  /** The weight is 1 up to delta; beyond, it caps the weighted residual at delta. */
  lemma HuberWeight(root: real -> real, v: Input<real>)
    requires v.delta > 0.0
    ensures var w, r := Weight(RealOps(root), v), Abs(Residual(RealOps(root), v));
      && 0.0 < w <= 1.0 && (w == 1.0 <==> r <= v.delta)
      && Times(w, r) == if r <= v.delta then r else v.delta
  {
    var r := RealOps(root).abs(Residual(RealOps(root), v));
    if r > v.delta {
      CappedQuotient(v.delta, r);
    }
  }

  lemma CappedQuotient(d: real, r: real)
    requires 0.0 < d < r
    ensures 0.0 < d / r < 1.0 && Times(d / r, r) == d
  {
    var q := d / r;
    assert q * r == d;
    if q <= 0.0 {
      NonPositive(q, r);
    } else if q >= 1.0 {
      NotBelow(q, r);
    }
  }

  lemma NonPositive(q: real, r: real)
    requires q <= 0.0 && r > 0.0
    ensures q * r <= 0.0
  {
  }

  lemma NotBelow(q: real, r: real)
    requires q >= 1.0 && r > 0.0
    ensures q * r >= r
  {
  }

  // ----- the Jacobian and the information -----

  /** The derivative of the transformed point in direction c: rotations about the origin, then translations. */
  function Column(p: Point<real>, c: nat): Point<real>
    requires c < 6
  {
    if c == 0 then Point(0.0, -p.z, p.y)
    else if c == 1 then Point(p.z, 0.0, -p.x)
    else if c == 2 then Point(-p.y, p.x, 0.0)
    else if c == 3 then Point(1.0, 0.0, 0.0)
    else if c == 4 then Point(0.0, 1.0, 0.0)
    else Point(0.0, 0.0, 1.0)
  }

  /** n n^T, the given matrix, or the identity. */
  function Information(v: Input<real>): (omega: seq<real>)
    requires |v.information| == 9
    ensures |omega| == 9
  {
    var n := v.normal;
    if v.plane then
      [Times(n.x, n.x), Times(n.x, n.y), Times(n.x, n.z), Times(n.y, n.x), Times(n.y, n.y), Times(n.y, n.z),
       Times(n.z, n.x), Times(n.z, n.y), Times(n.z, n.z)]
    else if v.generalized then v.information
    else [1.0, 0.0, 0.0, 0.0, 1.0, 0.0, 0.0, 0.0, 1.0]
  }

  function Form9(a: real, b: real, c: real, d: real, e: real, f: real, g: real, h: real, i: real,
                 x: real, y: real, z: real, r: real, s: real, t: real): real {
    x * (a * r + b * s + c * t) + y * (d * r + e * s + f * t) + z * (g * r + h * s + i * t)
  }

  /** u^T Omega v. */
  function Form(omega: seq<real>, u: Point<real>, v: Point<real>): real
    requires |omega| == 9
  {
    Form9(omega[0], omega[1], omega[2], omega[3], omega[4], omega[5], omega[6], omega[7], omega[8], u.x, u.y, u.z, v.x, v.y, v.z)
  }

  /** One weighted Jacobian entry, and one entry of a row, as the kernel groups them. */
  function WeightedReal(w: real, u0: real, u1: real, u2: real, a: real, b: real, c: real): real {
    (w * u0) * a + (w * u1) * b + (w * u2) * c
  }

  function RowReal(x: real, a: real, y: real, b: real, z: real, c: real): real {
    x * a + y * b + z * c
  }

  lemma EntryReals(w: real, i0: real, i1: real, i2: real, i3: real, i4: real, i5: real, i6: real, i7: real, i8: real,
                   u0: real, u1: real, u2: real, v0: real, v1: real, v2: real)
    ensures RowReal(WeightedReal(w, u0, u1, u2, i0, i3, i6), v0, WeightedReal(w, u0, u1, u2, i1, i4, i7), v1,
                    WeightedReal(w, u0, u1, u2, i2, i5, i8), v2)
      == Times(w, Form9(i0, i1, i2, i3, i4, i5, i6, i7, i8, u0, u1, u2, v0, v1, v2))
  {
    assert RowReal((w * u0) * i0 + (w * u1) * i3 + (w * u2) * i6, v0, (w * u0) * i1 + (w * u1) * i4 + (w * u2) * i7, v1,
                   (w * u0) * i2 + (w * u1) * i5 + (w * u2) * i8, v2)
      == w * (u0 * (i0 * v0 + i1 * v1 + i2 * v2) + u1 * (i3 * v0 + i4 * v1 + i5 * v2) + u2 * (i6 * v0 + i7 * v1 + i8 * v2));
  }

  lemma JacobianAt(o: Ops<real>, root: real -> real, p: Point<real>, c: nat)
    requires o == RealOps(root) && c < 6
    ensures var j, u := PointJacobian(o, p), Column(p, c); j[c] == u.x && j[6 + c] == u.y && j[12 + c] == u.z
  {
    if c == 0 {
    } else if c == 1 {
    } else if c == 2 {
    } else if c == 3 {
    } else if c == 4 {
    } else {
      assert c == 5;
    }
  }

  lemma MatrixRowMeans(o: Ops<real>, root: real -> real, x: Point<real>, j: seq<real>, c: nat)
    requires o == RealOps(root) && |j| == 18 && c < 6
    ensures MatrixRow(o, x, j)[c] == RowReal(x.x, j[c], x.y, j[6 + c], x.z, j[12 + c])
  {
  }

  lemma GeneralizedMeans(o: Ops<real>, root: real -> real, v: Input<real>, w: real, j: seq<real>, row: nat, k: nat)
    requires o == RealOps(root) && |v.information| == 9 && |j| == 18 && v.generalized && row < 6 && k < 3
    ensures WeightedAt(o, v, w, j, row, k) ==
      WeightedReal(w, j[row], j[6 + row], j[12 + row], v.information[k], v.information[3 + k], v.information[6 + k])
  {
  }

  lemma UnitMeans(o: Ops<real>, root: real -> real, v: Input<real>, w: real, j: seq<real>, row: nat)
    requires o == RealOps(root) && |v.information| == 9 && |j| == 18 && !v.generalized && row < 6
    ensures WeightedAt(o, v, w, j, row, 0) == WeightedReal(w, j[row], j[6 + row], j[12 + row], 1.0, 0.0, 0.0)
    ensures WeightedAt(o, v, w, j, row, 1) == WeightedReal(w, j[row], j[6 + row], j[12 + row], 0.0, 1.0, 0.0)
    ensures WeightedAt(o, v, w, j, row, 2) == WeightedReal(w, j[row], j[6 + row], j[12 + row], 0.0, 0.0, 1.0)
  {
    IdentityReals(w, j[row], j[6 + row], j[12 + row]);
  }

  lemma IdentityReals(w: real, x: real, y: real, z: real)
    ensures WeightedReal(w, x, y, z, 1.0, 0.0, 0.0) == w * x
    ensures WeightedReal(w, x, y, z, 0.0, 1.0, 0.0) == w * y
    ensures WeightedReal(w, x, y, z, 0.0, 0.0, 1.0) == w * z
  {
  }

  /** What the general branch weighs with. */
  lemma WeightedMeans(o: Ops<real>, root: real -> real, v: Input<real>, w: real, row: nat)
    requires o == RealOps(root) && |v.information| == 9 && !v.plane && row < 6
    ensures var u, i, x := Column(v.point, row), Information(v), Weighted(o, v, w, PointJacobian(o, v.point), row);
      && x.x == WeightedReal(w, u.x, u.y, u.z, i[0], i[3], i[6])
      && x.y == WeightedReal(w, u.x, u.y, u.z, i[1], i[4], i[7])
      && x.z == WeightedReal(w, u.x, u.y, u.z, i[2], i[5], i[8])
  {
    var j := PointJacobian(o, v.point);
    JacobianAt(o, root, v.point, row);
    if v.generalized {
      GeneralizedMeans(o, root, v, w, j, row, 0);
      GeneralizedMeans(o, root, v, w, j, row, 1);
      GeneralizedMeans(o, root, v, w, j, row, 2);
    } else {
      UnitMeans(o, root, v, w, j, row);
    }
  }

  lemma GeneralEntry(o: Ops<real>, root: real -> real, v: Input<real>, row: nat, c: nat)
    requires o == RealOps(root) && |v.information| == 9 && !v.plane && row < 6 && c < 6
    ensures NormalRow(o, v, row)[c] == Times(Weight(o, v), Form(Information(v), Column(v.point, row), Column(v.point, c)))
  {
    var w, i, u, t := Weight(o, v), Information(v), Column(v.point, row), Column(v.point, c);
    var j, x := PointJacobian(o, v.point), Weighted(o, v, w, PointJacobian(o, v.point), row);
    WeightedMeans(o, root, v, w, row);
    JacobianAt(o, root, v.point, c);
    MatrixRowMeans(o, root, x, j, c);
    EntryReals(w, i[0], i[1], i[2], i[3], i[4], i[5], i[6], i[7], i[8], u.x, u.y, u.z, t.x, t.y, t.z);
  }

  lemma PlaneReals(px: real, py: real, pz: real, nx: real, ny: real, nz: real)
    ensures NormalDot(nx, ny, nz, 0.0, -pz, py) == py * nz - pz * ny
    ensures NormalDot(nx, ny, nz, pz, 0.0, -px) == pz * nx - px * nz
    ensures NormalDot(nx, ny, nz, -py, px, 0.0) == px * ny - py * nx
    ensures NormalDot(nx, ny, nz, 1.0, 0.0, 0.0) == nx
    ensures NormalDot(nx, ny, nz, 0.0, 1.0, 0.0) == ny
    ensures NormalDot(nx, ny, nz, 0.0, 0.0, 1.0) == nz
  {
  }

  /** The plane Jacobian is the normal against the point Jacobian. */
  lemma PlaneJacobianAt(o: Ops<real>, root: real -> real, p: Point<real>, n: Point<real>, c: nat)
    requires o == RealOps(root) && c < 6
    ensures var u := Column(p, c); PlaneJacobian(o, p, n)[c] == NormalDot(n.x, n.y, n.z, u.x, u.y, u.z)
  {
    PlaneReals(p.x, p.y, p.z, n.x, n.y, n.z);
    if c == 0 {
    } else if c == 1 {
    } else if c == 2 {
    } else if c == 3 {
    } else if c == 4 {
    } else {
      assert c == 5;
    }
  }

  lemma OuterRowMeans(o: Ops<real>, root: real -> real, w: real, a: real, j: seq<real>, c: nat)
    requires o == RealOps(root) && |j| == 6 && c < 6
    ensures OuterRow(o, o.mul(w, a), j)[c] == Times(Times(w, a), j[c])
  {
  }

  lemma OuterReals(w: real, nx: real, ny: real, nz: real, u0: real, u1: real, u2: real, v0: real, v1: real, v2: real)
    ensures Times(Times(w, NormalDot(nx, ny, nz, u0, u1, u2)), NormalDot(nx, ny, nz, v0, v1, v2)) ==
      Times(w, Form9(Times(nx, nx), Times(nx, ny), Times(nx, nz), Times(ny, nx), Times(ny, ny), Times(ny, nz),
                     Times(nz, nx), Times(nz, ny), Times(nz, nz), u0, u1, u2, v0, v1, v2))
  {
    assert Times(Times(w, nx * u0 + ny * u1 + nz * u2), nx * v0 + ny * v1 + nz * v2) ==
      Times(w, Form9(nx * nx, nx * ny, nx * nz, ny * nx, ny * ny, ny * nz, nz * nx, nz * ny, nz * nz, u0, u1, u2, v0, v1, v2));
  }

  lemma PlaneEntry(o: Ops<real>, root: real -> real, v: Input<real>, row: nat, c: nat)
    requires o == RealOps(root) && |v.information| == 9 && v.plane && row < 6 && c < 6
    ensures NormalRow(o, v, row)[c] == Times(Weight(o, v), Form(Information(v), Column(v.point, row), Column(v.point, c)))
  {
    var w, n, u, t := Weight(o, v), v.normal, Column(v.point, row), Column(v.point, c);
    var j := PlaneJacobian(o, v.point, n);
    PlaneJacobianAt(o, root, v.point, n, row);
    PlaneJacobianAt(o, root, v.point, n, c);
    OuterRowMeans(o, root, w, j[row], j, c);
    OuterReals(w, n.x, n.y, n.z, u.x, u.y, u.z, t.x, t.y, t.z);
  }

  /** In every mode the matrix is w J^T Omega J. */
  lemma MatrixMeans(root: real -> real, v: Input<real>, row: nat, c: nat)
    requires |v.information| == 9 && row < 6 && c < 6
    ensures NormalRow(RealOps(root), v, row)[c] ==
      Times(Weight(RealOps(root), v), Form(Information(v), Column(v.point, row), Column(v.point, c)))
  {
    if v.plane {
      PlaneEntry(RealOps(root), root, v, row, c);
    } else {
      GeneralEntry(RealOps(root), root, v, row, c);
    }
  }

  lemma GeneralGradient(o: Ops<real>, root: real -> real, v: Input<real>, row: nat)
    requires o == RealOps(root) && |v.information| == 9 && !v.plane && row < 6
    ensures GradientAt(o, v, row) == -Times(Weight(o, v), Form(Information(v), Column(v.point, row), ErrorOf(o, v)))
  {
    var w, i, u, e := Weight(o, v), Information(v), Column(v.point, row), ErrorOf(o, v);
    var x := Weighted(o, v, w, PointJacobian(o, v.point), row);
    WeightedMeans(o, root, v, w, row);
    EntryReals(w, i[0], i[1], i[2], i[3], i[4], i[5], i[6], i[7], i[8], u.x, u.y, u.z, e.x, e.y, e.z);
    NegatedRow(o, root, x, e);
  }

  lemma NegatedRow(o: Ops<real>, root: real -> real, x: Point<real>, e: Point<real>)
    requires o == RealOps(root)
    ensures o.neg(o.add(o.add(o.mul(x.x, e.x), o.mul(x.y, e.y)), o.mul(x.z, e.z))) == -RowReal(x.x, e.x, x.y, e.y, x.z, e.z)
  {
  }

  lemma PlaneGradientMeans(o: Ops<real>, root: real -> real, w: real, r: real, a: real)
    requires o == RealOps(root)
    ensures o.mul(o.mul(w, o.neg(r)), a) == -Times(Times(w, a), r)
  {
  }

  lemma PlaneGradient(o: Ops<real>, root: real -> real, v: Input<real>, row: nat)
    requires o == RealOps(root) && |v.information| == 9 && v.plane && row < 6
    ensures GradientAt(o, v, row) == -Times(Weight(o, v), Form(Information(v), Column(v.point, row), ErrorOf(o, v)))
  {
    var w, n, u, e := Weight(o, v), v.normal, Column(v.point, row), ErrorOf(o, v);
    PlaneJacobianAt(o, root, v.point, n, row);
    PlaneResidual(o, root, v);
    PlaneGradientMeans(o, root, w, Residual(o, v), PlaneJacobian(o, v.point, n)[row]);
    OuterReals(w, n.x, n.y, n.z, u.x, u.y, u.z, e.x, e.y, e.z);
  }

  lemma GradientOfError(root: real -> real, v: Input<real>, row: nat)
    requires |v.information| == 9 && row < 6
    ensures GradientAt(RealOps(root), v, row) ==
      -Times(Weight(RealOps(root), v), Form(Information(v), Column(v.point, row), ErrorOf(RealOps(root), v)))
  {
    if v.plane {
      PlaneGradient(RealOps(root), root, v, row);
    } else {
      GeneralGradient(RealOps(root), root, v, row);
    }
  }

  /** In every mode the gradient is -w J^T Omega (p - q), for a scan point p against a reference point q. */
  lemma GradientMeans(root: real -> real, v: Input<real>, row: nat)
    requires |v.information| == 9 && row < 6
    ensures var p, q := v.point, v.reference;
      GradientAt(RealOps(root), v, row) ==
        -Times(Weight(RealOps(root), v), Form(Information(v), Column(p, row), Point(p.x - q.x, p.y - q.y, p.z - q.z)))
  {
    GradientOfError(root, v, row);
  }

  /** The plane branch is the general branch with information n n^T, at the same weight. */
  lemma PlaneIsGeneral(root: real -> real, v: Input<real>, g: Input<real>, row: nat, c: nat)
    requires |v.information| == 9 && v.plane && row < 6 && c < 6
    requires g == v.(plane := false, generalized := true, information := Information(v))
    requires Weight(RealOps(root), g) == Weight(RealOps(root), v)
    ensures NormalRow(RealOps(root), g, row)[c] == NormalRow(RealOps(root), v, row)[c]
    ensures GradientAt(RealOps(root), g, row) == GradientAt(RealOps(root), v, row)
  {
    MatrixMeans(root, v, row, c);
    MatrixMeans(root, g, row, c);
    GradientOfError(root, v, row);
    GradientOfError(root, g, row);
  }

  /** What the kernel leaves in its output, whichever operations it uses. */
  lemma OutputMeans(root: real -> real, v: Input<real>, matrix: seq<real>, gradient: seq<real>, row: nat, c: nat)
    requires |v.information| == 9 && row < 6 && c < 6
    requires HoldsRows(matrix, NormalRows(RealOps(root), v, 6), 6) && gradient == Gradient(RealOps(root), v, 6)
    ensures var p, q, w, omega := v.point, v.reference, Weight(RealOps(root), v), Information(v);
      && matrix[6 * row + c] == Times(w, Form(omega, Column(p, row), Column(p, c)))
      && gradient[row] == -Times(w, Form(omega, Column(p, row), Point(p.x - q.x, p.y - q.y, p.z - q.z)))
  {
    RowsAt(RealOps(root), v, 6, row);
    MatrixMeans(root, v, row, c);
    GradientMeans(root, v, row);
    assert NormalRows(RealOps(root), v, 6)[row][c] == NormalRow(RealOps(root), v, row)[c];
  }

  // ----- accumulated normal equations -----

  /** The entries a contribution adds to the normal matrix. */
  function Entry(root: real -> real, v: Input<real>): (nat, nat) -> real {
    (r: nat, c: nat) => if r < 6 && c < 6 && |v.information| == 9 then NormalRow(RealOps(root), v, r)[c] else 0.0
  }

  /** The sum over any number of correspondences. */
  function Accumulated(root: real -> real, vs: seq<Input<real>>, r: nat, c: nat): real {
    if vs == [] then 0.0 else Accumulated(root, vs[..|vs| - 1], r, c) + Entry(root, vs[|vs| - 1])(r, c)
  }

  function AccumulatedEntries(root: real -> real, vs: seq<Input<real>>): (nat, nat) -> real {
    (r: nat, c: nat) => Accumulated(root, vs, r, c)
  }

  predicate Symmetric(omega: seq<real>)
    requires |omega| == 9
  {
    omega[1] == omega[3] && omega[2] == omega[6] && omega[5] == omega[7]
  }

  ghost predicate PositiveSemidefinite(omega: seq<real>)
    requires |omega| == 9
  {
    forall u: Point<real> :: Form(omega, u, u) >= 0.0
  }

  /** sum over c < n of f(r, c) x_c. */
  function RowForm(f: (nat, nat) -> real, x: seq<real>, r: nat, n: nat): real
    requires n <= |x|
  {
    if n == 0 then 0.0 else RowForm(f, x, r, n - 1) + Times(x[n - 1], f(r, n - 1))
  }

  /** sum over r < n of x_r times row r of f against x: the quadratic form of f. */
  function QuadraticForm(f: (nat, nat) -> real, x: seq<real>, n: nat): real
    requires |x| == 6 && n <= 6
  {
    if n == 0 then 0.0 else QuadraticForm(f, x, n - 1) + Times(x[n - 1], RowForm(f, x, n - 1, 6))
  }

  function Plus(a: Point<real>, b: Point<real>, s: real): Point<real> {
    Point(a.x + Times(s, b.x), a.y + Times(s, b.y), a.z + Times(s, b.z))
  }

  /** J x, the displacement of the point along x. */
  function Along(p: Point<real>, x: seq<real>, n: nat): Point<real>
    requires |x| == 6 && n <= 6
  {
    if n == 0 then Point(0.0, 0.0, 0.0) else Plus(Along(p, x, n - 1), Column(p, n - 1), x[n - 1])
  }

  lemma FormRightReals(i0: real, i1: real, i2: real, i3: real, i4: real, i5: real, i6: real, i7: real, i8: real,
                       u0: real, u1: real, u2: real, a0: real, a1: real, a2: real, b0: real, b1: real, b2: real, s: real)
    ensures Form9(i0, i1, i2, i3, i4, i5, i6, i7, i8, u0, u1, u2, a0 + Times(s, b0), a1 + Times(s, b1), a2 + Times(s, b2))
      == Form9(i0, i1, i2, i3, i4, i5, i6, i7, i8, u0, u1, u2, a0, a1, a2)
         + Times(s, Form9(i0, i1, i2, i3, i4, i5, i6, i7, i8, u0, u1, u2, b0, b1, b2))
  {
    assert Form9(i0, i1, i2, i3, i4, i5, i6, i7, i8, u0, u1, u2, a0 + s * b0, a1 + s * b1, a2 + s * b2)
      == Form9(i0, i1, i2, i3, i4, i5, i6, i7, i8, u0, u1, u2, a0, a1, a2)
         + s * (u0 * (i0 * b0 + i1 * b1 + i2 * b2) + u1 * (i3 * b0 + i4 * b1 + i5 * b2) + u2 * (i6 * b0 + i7 * b1 + i8 * b2));
  }

  lemma FormLeftReals(i0: real, i1: real, i2: real, i3: real, i4: real, i5: real, i6: real, i7: real, i8: real,
                      u0: real, u1: real, u2: real, a0: real, a1: real, a2: real, b0: real, b1: real, b2: real, s: real)
    ensures Form9(i0, i1, i2, i3, i4, i5, i6, i7, i8, a0 + Times(s, b0), a1 + Times(s, b1), a2 + Times(s, b2), u0, u1, u2)
      == Form9(i0, i1, i2, i3, i4, i5, i6, i7, i8, a0, a1, a2, u0, u1, u2)
         + Times(s, Form9(i0, i1, i2, i3, i4, i5, i6, i7, i8, b0, b1, b2, u0, u1, u2))
  {
    assert Form9(i0, i1, i2, i3, i4, i5, i6, i7, i8, a0 + s * b0, a1 + s * b1, a2 + s * b2, u0, u1, u2)
      == Form9(i0, i1, i2, i3, i4, i5, i6, i7, i8, a0, a1, a2, u0, u1, u2)
         + s * (b0 * (i0 * u0 + i1 * u1 + i2 * u2) + b1 * (i3 * u0 + i4 * u1 + i5 * u2) + b2 * (i6 * u0 + i7 * u1 + i8 * u2));
  }

  lemma FormPlus(omega: seq<real>, u: Point<real>, a: Point<real>, b: Point<real>, s: real)
    requires |omega| == 9
    ensures Form(omega, u, Plus(a, b, s)) == Form(omega, u, a) + Times(s, Form(omega, u, b))
    ensures Form(omega, Plus(a, b, s), u) == Form(omega, a, u) + Times(s, Form(omega, b, u))
  {
    FormRightReals(omega[0], omega[1], omega[2], omega[3], omega[4], omega[5], omega[6], omega[7], omega[8],
                   u.x, u.y, u.z, a.x, a.y, a.z, b.x, b.y, b.z, s);
    FormLeftReals(omega[0], omega[1], omega[2], omega[3], omega[4], omega[5], omega[6], omega[7], omega[8],
                  u.x, u.y, u.z, a.x, a.y, a.z, b.x, b.y, b.z, s);
  }

  lemma FormZero(omega: seq<real>, u: Point<real>)
    requires |omega| == 9
    ensures Form(omega, u, Point(0.0, 0.0, 0.0)) == 0.0 && Form(omega, Point(0.0, 0.0, 0.0), u) == 0.0
  {
  }

  lemma ScaledSum(w: real, a: real, b: real, s: real)
    ensures Times(w, a) + Times(s, Times(w, b)) == Times(w, a + Times(s, b))
  {
    assert w * a + s * (w * b) == w * (a + s * b);
  }

  /** f is w J^T Omega J. */
  ghost predicate IsNormal(f: (nat, nat) -> real, w: real, omega: seq<real>, p: Point<real>) {
    |omega| == 9 && forall r: nat, c: nat :: r < 6 && c < 6 ==> f(r, c) == Times(w, Form(omega, Column(p, r), Column(p, c)))
  }

  lemma {:induction false} RowFormMeans(f: (nat, nat) -> real, w: real, omega: seq<real>, p: Point<real>, x: seq<real>, r: nat, n: nat)
    requires IsNormal(f, w, omega, p) && |x| == 6 && r < 6 && n <= 6
    ensures RowForm(f, x, r, n) == Times(w, Form(omega, Column(p, r), Along(p, x, n)))
  {
    var u := Column(p, r);
    if n == 0 {
      FormZero(omega, u);
    } else {
      RowFormMeans(f, w, omega, p, x, r, n - 1);
      FormPlus(omega, u, Along(p, x, n - 1), Column(p, n - 1), x[n - 1]);
      ScaledSum(w, Form(omega, u, Along(p, x, n - 1)), Form(omega, u, Column(p, n - 1)), x[n - 1]);
    }
  }

  lemma {:induction false} QuadraticMeans(f: (nat, nat) -> real, w: real, omega: seq<real>, p: Point<real>, x: seq<real>, n: nat)
    requires IsNormal(f, w, omega, p) && |x| == 6 && n <= 6
    ensures QuadraticForm(f, x, n) == Times(w, Form(omega, Along(p, x, n), Along(p, x, 6)))
  {
    var y := Along(p, x, 6);
    if n == 0 {
      FormZero(omega, y);
    } else {
      QuadraticMeans(f, w, omega, p, x, n - 1);
      RowFormMeans(f, w, omega, p, x, n - 1, 6);
      FormPlus(omega, y, Along(p, x, n - 1), Column(p, n - 1), x[n - 1]);
      ScaledSum(w, Form(omega, Along(p, x, n - 1), y), Form(omega, Column(p, n - 1), y), x[n - 1]);
    }
  }

  lemma EntryIsNormal(root: real -> real, v: Input<real>)
    requires |v.information| == 9
    ensures IsNormal(Entry(root, v), Weight(RealOps(root), v), Information(v), v.point)
  {
    forall r: nat, c: nat | r < 6 && c < 6
      ensures Entry(root, v)(r, c) == Times(Weight(RealOps(root), v), Form(Information(v), Column(v.point, r), Column(v.point, c)))
    {
      MatrixMeans(root, v, r, c);
    }
  }

  lemma Sign(w: real, a: real)
    requires w > 0.0 && a >= 0.0
    ensures Times(w, a) >= 0.0
  {
  }

  lemma {:induction false} RowFormAdds(f: (nat, nat) -> real, g: (nat, nat) -> real, h: (nat, nat) -> real, x: seq<real>, r: nat, n: nat)
    requires n <= |x| && forall c: nat :: c < n ==> h(r, c) == f(r, c) + g(r, c)
    ensures RowForm(h, x, r, n) == RowForm(f, x, r, n) + RowForm(g, x, r, n)
  {
    if n > 0 {
      RowFormAdds(f, g, h, x, r, n - 1);
      Distributes(x[n - 1], f(r, n - 1), g(r, n - 1));
    }
  }

  lemma Distributes(s: real, a: real, b: real)
    ensures Times(s, a + b) == Times(s, a) + Times(s, b)
  {
  }

  lemma {:induction false} QuadraticAdds(f: (nat, nat) -> real, g: (nat, nat) -> real, h: (nat, nat) -> real, x: seq<real>, n: nat)
    requires |x| == 6 && n <= 6 && forall r: nat, c: nat :: r < 6 && c < 6 ==> h(r, c) == f(r, c) + g(r, c)
    ensures QuadraticForm(h, x, n) == QuadraticForm(f, x, n) + QuadraticForm(g, x, n)
  {
    if n > 0 {
      QuadraticAdds(f, g, h, x, n - 1);
      RowFormAdds(f, g, h, x, n - 1, 6);
      Distributes(x[n - 1], RowForm(f, x, n - 1, 6), RowForm(g, x, n - 1, 6));
    }
  }

  /** A correspondence whose contribution is weighted by a positive semidefinite information. */
  ghost predicate Sensible(v: Input<real>) {
    |v.information| == 9 && v.delta > 0.0 && Symmetric(Information(v)) && PositiveSemidefinite(Information(v))
  }

  lemma {:induction false} ZeroQuadratic(f: (nat, nat) -> real, x: seq<real>, n: nat)
    requires |x| == 6 && n <= 6 && forall r: nat, c: nat :: f(r, c) == 0.0
    ensures QuadraticForm(f, x, n) == 0.0
  {
    if n > 0 {
      ZeroQuadratic(f, x, n - 1);
      ZeroRow(f, x, n - 1, 6);
    }
  }

  lemma {:induction false} ZeroRow(f: (nat, nat) -> real, x: seq<real>, r: nat, n: nat)
    requires n <= |x| && forall c: nat :: f(r, c) == 0.0
    ensures RowForm(f, x, r, n) == 0.0
  {
    if n > 0 {
      ZeroRow(f, x, r, n - 1);
    }
  }

  /** Any accumulated normal matrix is positive semidefinite when each information is. */
  lemma {:induction false} AccumulatedIsSemidefinite(root: real -> real, vs: seq<Input<real>>, x: seq<real>)
    requires |x| == 6 && forall i :: 0 <= i < |vs| ==> Sensible(vs[i])
    ensures QuadraticForm(AccumulatedEntries(root, vs), x, 6) >= 0.0
  {
    if vs == [] {
      ZeroQuadratic(AccumulatedEntries(root, vs), x, 6);
    } else {
      var rest, v := vs[..|vs| - 1], vs[|vs| - 1];
      AccumulatedIsSemidefinite(root, rest, x);
      QuadraticAdds(AccumulatedEntries(root, rest), Entry(root, v), AccumulatedEntries(root, vs), x, 6);
      ContributionIsSemidefinite(root, v, x);
    }
  }

  lemma ContributionIsSemidefinite(root: real -> real, v: Input<real>, x: seq<real>)
    requires |x| == 6 && Sensible(v)
    ensures QuadraticForm(Entry(root, v), x, 6) >= 0.0
  {
    EntryIsNormal(root, v);
    QuadraticMeans(Entry(root, v), Weight(RealOps(root), v), Information(v), v.point, x, 6);
    HuberWeight(root, v);
    var y := Along(v.point, x, 6);
    assert Form(Information(v), y, y) >= 0.0;
    Sign(Weight(RealOps(root), v), Form(Information(v), y, y));
  }

  lemma FormSymmetric(omega: seq<real>, u: Point<real>, v: Point<real>)
    requires |omega| == 9 && Symmetric(omega)
    ensures Form(omega, u, v) == Form(omega, v, u)
  {
    SymmetricReals(omega[0], omega[1], omega[2], omega[4], omega[5], omega[8], u.x, u.y, u.z, v.x, v.y, v.z);
  }

  lemma SymmetricReals(a: real, b: real, c: real, e: real, f: real, i: real, x: real, y: real, z: real, r: real, s: real, t: real)
    ensures Form9(a, b, c, b, e, f, c, f, i, x, y, z, r, s, t) == Form9(a, b, c, b, e, f, c, f, i, r, s, t, x, y, z)
  {
  }

  /** And symmetric. */
  lemma {:induction false} AccumulatedIsSymmetric(root: real -> real, vs: seq<Input<real>>, r: nat, c: nat)
    requires r < 6 && c < 6 && forall i :: 0 <= i < |vs| ==> Sensible(vs[i])
    ensures Accumulated(root, vs, r, c) == Accumulated(root, vs, c, r)
  {
    if vs != [] {
      var v := vs[|vs| - 1];
      AccumulatedIsSymmetric(root, vs[..|vs| - 1], r, c);
      MatrixMeans(root, v, r, c);
      MatrixMeans(root, v, c, r);
      FormSymmetric(Information(v), Column(v.point, r), Column(v.point, c));
    }
  }

  /** The informations of the plane and the point mode always qualify. */
  lemma PlaneAndPointSensible(v: Input<real>)
    requires |v.information| == 9 && v.delta > 0.0 && (v.plane || !v.generalized)
    ensures Sensible(v)
  {
    forall u: Point<real>
      ensures Form(Information(v), u, u) >= 0.0
    {
      if v.plane {
        PlaneForm(v.normal.x, v.normal.y, v.normal.z, u.x, u.y, u.z);
      } else {
        PointForm(u.x, u.y, u.z);
      }
    }
    CommutingReals(v.normal.x, v.normal.y, v.normal.z);
  }

  lemma CommutingReals(x: real, y: real, z: real)
    ensures Times(x, y) == Times(y, x) && Times(x, z) == Times(z, x) && Times(y, z) == Times(z, y)
  {
  }

  lemma PlaneForm(nx: real, ny: real, nz: real, x: real, y: real, z: real)
    ensures Form9(Times(nx, nx), Times(nx, ny), Times(nx, nz), Times(ny, nx), Times(ny, ny), Times(ny, nz),
                  Times(nz, nx), Times(nz, ny), Times(nz, nz), x, y, z, x, y, z) >= 0.0
  {
    OuterReals(1.0, nx, ny, nz, x, y, z, x, y, z);
    var d := NormalDot(nx, ny, nz, x, y, z);
    assert d * d >= 0.0;
  }

  lemma PointForm(x: real, y: real, z: real)
    ensures Form9(1.0, 0.0, 0.0, 0.0, 1.0, 0.0, 0.0, 0.0, 1.0, x, y, z, x, y, z) >= 0.0
  {
    assert Form9(1.0, 0.0, 0.0, 0.0, 1.0, 0.0, 0.0, 0.0, 1.0, x, y, z, x, y, z) == x * x + y * y + z * z;
  }
}
