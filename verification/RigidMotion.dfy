/**
  The rigid-motion primitives of src/backends/pcl/pcl_registration_backend.cpp and RigidTransform of
  include/pointcloud_ad/geometry.hpp, over exact reals. A matrix is kept by columns; the square root,
  cosine and sine are parameters.
 */
module RigidMotion {
  import opened Basics

  datatype Vector = Vector(x: real, y: real, z: real)

  datatype Bottom = Bottom(x: real, y: real, z: real, w: real)

  /** A 4x4 matrix: three columns of rotation, the translation, and the last row. */
  datatype Matrix = Matrix(x: Vector, y: Vector, z: Vector, t: Vector, last: Bottom)

  const LAST := Bottom(0.0, 0.0, 0.0, 1.0)
  const IDENTITY := Matrix(Vector(1.0, 0.0, 0.0), Vector(0.0, 1.0, 0.0), Vector(0.0, 0.0, 1.0), Vector(0.0, 0.0, 0.0), LAST)

  function Minus(a: Vector, b: Vector): Vector {
    Vector(a.x - b.x, a.y - b.y, a.z - b.z)
  }

  function Scale(s: real, v: Vector): Vector {
    Vector(Times(s, v.x), Times(s, v.y), Times(s, v.z))
  }

  function Dot(a: Vector, b: Vector): real {
    Dot3(a.x, a.y, a.z, b.x, b.y, b.z)
  }

  function Cross(a: Vector, b: Vector): Vector {
    Vector(Minor(a.y, b.z, a.z, b.y), Minor(a.z, b.x, a.x, b.z), Minor(a.x, b.y, a.y, b.x))
  }

  function Determinant(m: Matrix): real {
    Det(m.x.x, m.x.y, m.x.z, m.y.x, m.y.y, m.y.z, m.z.x, m.z.y, m.z.z)
  }

  // ----- products -----

  function Component(v: Vector, row: nat): real {
    if row == 0 then v.x else if row == 1 then v.y else v.z
  }

  function BottomAt(b: Bottom, column: nat): real {
    if column == 0 then b.x else if column == 1 then b.y else if column == 2 then b.z else b.w
  }

  function ColumnOf(m: Matrix, column: nat): Vector {
    if column == 0 then m.x else if column == 1 then m.y else if column == 2 then m.z else m.t
  }

  function At(m: Matrix, row: nat, column: nat): real {
    if row < 3 then Component(ColumnOf(m, column), row) else BottomAt(m.last, column)
  }

  function Dot4(a0: real, b0: real, a1: real, b1: real, a2: real, b2: real, a3: real, b3: real): real {
    a0 * b0 + a1 * b1 + a2 * b2 + a3 * b3
  }

  /** Row times column. */
  function Entry(left: Matrix, right: Matrix, row: nat, column: nat): real {
    Dot4(At(left, row, 0), At(right, 0, column), At(left, row, 1), At(right, 1, column),
         At(left, row, 2), At(right, 2, column), At(left, row, 3), At(right, 3, column))
  }

  function ProductColumn(left: Matrix, right: Matrix, column: nat): Vector {
    Vector(Entry(left, right, 0, column), Entry(left, right, 1, column), Entry(left, right, 2, column))
  }

  function Product(left: Matrix, right: Matrix): Matrix {
    Matrix(ProductColumn(left, right, 0), ProductColumn(left, right, 1), ProductColumn(left, right, 2), ProductColumn(left, right, 3),
           Bottom(Entry(left, right, 3, 0), Entry(left, right, 3, 1), Entry(left, right, 3, 2), Entry(left, right, 3, 3)))
  }

  /** The i-th partial sum of an entry. */
  function Partial(left: Matrix, right: Matrix, row: nat, column: nat, i: nat): real {
    if i == 0 then 0.0 else Partial(left, right, row, column, i - 1) + At(left, row, i - 1) * At(right, i - 1, column)
  }

  lemma PartialIsEntry(left: Matrix, right: Matrix, row: nat, column: nat)
    ensures Partial(left, right, row, column, 4) == Entry(left, right, row, column)
  {
    assert Partial(left, right, row, column, 1) == 0.0 + At(left, row, 0) * At(right, 0, column);
    assert Partial(left, right, row, column, 2) == Partial(left, right, row, column, 1) + At(left, row, 1) * At(right, 1, column);
    assert Partial(left, right, row, column, 3) == Partial(left, right, row, column, 2) + At(left, row, 2) * At(right, 2, column);
  }

  method Multiply(left: Matrix, right: Matrix) returns (m: Matrix)
    ensures m == Product(left, right)
  {
    var result := new real[4, 4];
    for row := 0 to 4
      invariant forall r, c :: 0 <= r < row && 0 <= c < 4 ==> result[r, c] == Entry(left, right, r, c)
    {
      for column := 0 to 4
        invariant forall r, c :: 0 <= r < row && 0 <= c < 4 ==> result[r, c] == Entry(left, right, r, c)
        invariant forall c :: 0 <= c < column ==> result[row, c] == Entry(left, right, row, c)
      {
        var sum := 0.0;
        for index := 0 to 4
          invariant sum == Partial(left, right, row, column, index)
        {
          sum := sum + At(left, row, index) * At(right, index, column);
        }
        PartialIsEntry(left, right, row, column);
        result[row, column] := sum;
      }
    }
    m := Matrix(Vector(result[0, 0], result[1, 0], result[2, 0]), Vector(result[0, 1], result[1, 1], result[2, 1]),
                Vector(result[0, 2], result[1, 2], result[2, 2]), Vector(result[0, 3], result[1, 3], result[2, 3]),
                Bottom(result[3, 0], result[3, 1], result[3, 2], result[3, 3]));
  }

  function Apply(m: Matrix, p: Vector): Vector {
    Vector(Affine(m.x.x, m.y.x, m.z.x, m.t.x, p.x, p.y, p.z),
           Affine(m.x.y, m.y.y, m.z.y, m.t.y, p.x, p.y, p.z),
           Affine(m.x.z, m.y.z, m.z.z, m.t.z, p.x, p.y, p.z))
  }

  /** One coordinate of an affine map. */
  function Affine(a: real, b: real, c: real, d: real, x: real, y: real, z: real): real {
    a * x + b * y + c * z + d
  }

  lemma AffineComposes(a: real, b: real, c: real, d: real, xx: real, xy: real, xz: real, yx: real, yy: real, yz: real,
                       zx: real, zy: real, zz: real, tx: real, ty: real, tz: real, px: real, py: real, pz: real)
    ensures Affine(Dot4(a, xx, b, xy, c, xz, d, 0.0), Dot4(a, yx, b, yy, c, yz, d, 0.0), Dot4(a, zx, b, zy, c, zz, d, 0.0),
                   Dot4(a, tx, b, ty, c, tz, d, 1.0), px, py, pz)
         == Affine(a, b, c, d, Affine(xx, yx, zx, tx, px, py, pz), Affine(xy, yy, zy, ty, px, py, pz), Affine(xz, yz, zz, tz, px, py, pz))
  {
    assert Affine(a * xx + b * xy + c * xz + d * 0.0, a * yx + b * yy + c * yz + d * 0.0, a * zx + b * zy + c * zz + d * 0.0,
                  a * tx + b * ty + c * tz + d * 1.0, px, py, pz)
        == Affine(a, b, c, d, xx * px + yx * py + zx * pz + tx, xy * px + yy * py + zy * pz + ty, xz * px + yz * py + zz * pz + tz);
  }

  /** A product acts as one matrix after the other. */
  lemma ProductComposes(left: Matrix, right: Matrix, p: Vector)
    requires right.last == LAST
    ensures Apply(Product(left, right), p) == Apply(left, Apply(right, p))
  {
    var x, y, z, t := right.x, right.y, right.z, right.t;
    AffineComposes(left.x.x, left.y.x, left.z.x, left.t.x, x.x, x.y, x.z, y.x, y.y, y.z, z.x, z.y, z.z, t.x, t.y, t.z, p.x, p.y, p.z);
    AffineComposes(left.x.y, left.y.y, left.z.y, left.t.y, x.x, x.y, x.z, y.x, y.y, y.z, z.x, z.y, z.z, t.x, t.y, t.z, p.x, p.y, p.z);
    AffineComposes(left.x.z, left.y.z, left.z.z, left.t.z, x.x, x.y, x.z, y.x, y.y, y.z, z.x, z.y, z.z, t.x, t.y, t.z, p.x, p.y, p.z);
  }

  // ----- determinants -----

  lemma DetOfProduct(a0: real, a1: real, a2: real, b0: real, b1: real, b2: real, c0: real, c1: real, c2: real,
                     u0: real, u1: real, u2: real, v0: real, v1: real, v2: real, w0: real, w1: real, w2: real,
                     t0: real, t1: real, t2: real)
    ensures Det(Dot4(a0, u0, b0, u1, c0, u2, t0, 0.0), Dot4(a1, u0, b1, u1, c1, u2, t1, 0.0), Dot4(a2, u0, b2, u1, c2, u2, t2, 0.0),
                Dot4(a0, v0, b0, v1, c0, v2, t0, 0.0), Dot4(a1, v0, b1, v1, c1, v2, t1, 0.0), Dot4(a2, v0, b2, v1, c2, v2, t2, 0.0),
                Dot4(a0, w0, b0, w1, c0, w2, t0, 0.0), Dot4(a1, w0, b1, w1, c1, w2, t1, 0.0), Dot4(a2, w0, b2, w1, c2, w2, t2, 0.0))
         == Det(a0, a1, a2, b0, b1, b2, c0, c1, c2) * Det(u0, u1, u2, v0, v1, v2, w0, w1, w2)
  {
    assert Det(a0 * u0 + b0 * u1 + c0 * u2 + t0 * 0.0, a1 * u0 + b1 * u1 + c1 * u2 + t1 * 0.0, a2 * u0 + b2 * u1 + c2 * u2 + t2 * 0.0,
               a0 * v0 + b0 * v1 + c0 * v2 + t0 * 0.0, a1 * v0 + b1 * v1 + c1 * v2 + t1 * 0.0, a2 * v0 + b2 * v1 + c2 * v2 + t2 * 0.0,
               a0 * w0 + b0 * w1 + c0 * w2 + t0 * 0.0, a1 * w0 + b1 * w1 + c1 * w2 + t1 * 0.0, a2 * w0 + b2 * w1 + c2 * w2 + t2 * 0.0)
        == Det(a0, a1, a2, b0, b1, b2, c0, c1, c2) * Det(u0, u1, u2, v0, v1, v2, w0, w1, w2);
  }

  lemma ProductLast(left: Matrix, right: Matrix)
    requires left.last == LAST && right.last == LAST
    ensures Product(left, right).last == LAST
  {
  }

  lemma ProductDeterminant(left: Matrix, right: Matrix)
    requires right.last == LAST
    ensures Determinant(Product(left, right)) == Determinant(left) * Determinant(right)
  {
    var a, b, c, t := left.x, left.y, left.z, left.t;
    var u, v, w := right.x, right.y, right.z;
    DetOfProduct(a.x, a.y, a.z, b.x, b.y, b.z, c.x, c.y, c.z, u.x, u.y, u.z, v.x, v.y, v.z, w.x, w.y, w.z, t.x, t.y, t.z);
  }

  // ----- increments -----

  /** The square root, cosine and sine. */
  datatype Functions = Functions(root: real -> real, cos: real -> real, sin: real -> real)

  ghost predicate Proper(f: Functions) {
    IsRoot(f.root) && forall a {:trigger f.cos(a)} :: f.cos(a) * f.cos(a) + f.sin(a) * f.sin(a) == 1.0
  }

  const SMALL_ANGLE := 0.000000000001

  function Norm(f: Functions, v: Vector): real {
    f.root(Dot(v, v))
  }

  /** c I + s [k] + d k k^T for the axis k = (x, y, z), with a translation. */
  function Turn(c: real, s: real, d: real, x: real, y: real, z: real, t: Vector): Matrix {
    Matrix(Vector(c + d * x * x, s * z + d * y * x, -s * y + d * z * x),
           Vector(-s * z + d * x * y, c + d * y * y, s * x + d * z * y),
           Vector(s * y + d * x * z, -s * x + d * y * z, c + d * z * z), t, LAST)
  }

  /** delta_from_twist: Rodrigues' formula, or first order for tiny angles. */
  function Delta(f: Functions, rotation: Vector, translation: Vector): Matrix
    requires Proper(f)
  {
    var angle := Norm(f, rotation);
    if angle < SMALL_ANGLE then
      Matrix(Vector(1.0, rotation.z, -rotation.y), Vector(-rotation.z, 1.0, rotation.x),
             Vector(rotation.y, -rotation.x, 1.0), translation, LAST)
    else
      var cosine, sine := f.cos(angle), f.sin(angle);
      Turn(cosine, sine, 1.0 - cosine, rotation.x / angle, rotation.y / angle, rotation.z / angle, translation)
  }

  function Expansion(x: real, y: real, z: real, m0: real, m1: real, m2: real): real {
    x * m0 - y * m1 + z * m2
  }

  lemma DetByMinors(x0: real, x1: real, x2: real, y0: real, y1: real, y2: real, z0: real, z1: real, z2: real)
    ensures Det(x0, x1, x2, y0, y1, y2, z0, z1, z2) == Expansion(x0, y0, z0, Minor(y1, z2, z1, y2), Minor(x1, z2, z1, x2), Minor(x1, y2, y1, x2))
  {
  }

  function Stretch(c: real, d: real, x: real, y: real, z: real): real {
    c + d * (x * x + y * y + z * z)
  }

  /** The minors of a turn along its first row. */
  function Minor0(c: real, s: real, d: real, x: real, p: real): real {
    p * c + (s * s - c * d) * x * x
  }

  function Minor1(c: real, s: real, d: real, x: real, y: real, z: real, p: real): real {
    p * s * z - (s * s - c * d) * x * y
  }

  function Minor2(c: real, s: real, d: real, x: real, y: real, z: real, p: real): real {
    p * s * y + (s * s - c * d) * x * z
  }

  lemma TurnMinors(c: real, s: real, d: real, x: real, y: real, z: real)
    ensures Minor(c + d * y * y, c + d * z * z, -s * x + d * y * z, s * x + d * z * y) == Minor0(c, s, d, x, Stretch(c, d, x, y, z))
    ensures Minor(s * z + d * y * x, c + d * z * z, -s * x + d * y * z, -s * y + d * z * x) == Minor1(c, s, d, x, y, z, Stretch(c, d, x, y, z))
    ensures Minor(s * z + d * y * x, s * x + d * z * y, c + d * y * y, -s * y + d * z * x) == Minor2(c, s, d, x, y, z, Stretch(c, d, x, y, z))
  {
  }

  /** The expansion along the first row. */
  lemma TurnRow(c: real, s: real, d: real, x: real, y: real, z: real, p: real)
    ensures Expansion(c + d * x * x, -s * z + d * x * y, s * y + d * x * z,
                      Minor0(c, s, d, x, p), Minor1(c, s, d, x, y, z, p), Minor2(c, s, d, x, y, z, p))
         == p * (c * c + c * d * x * x + s * s * (y * y + z * z)) + (s * s - c * d) * x * x * Stretch(c, d, x, y, z)
  {
  }

  lemma TurnCollected(c: real, s: real, d: real, x: real, y: real, z: real, p: real)
    ensures p * (c * c + c * d * x * x + s * s * (y * y + z * z)) + (s * s - c * d) * x * x * p
         == Times(c * c + s * s * Dot3(x, y, z, x, y, z), p)
  {
  }

  lemma TurnExpanded(c: real, s: real, d: real, x: real, y: real, z: real)
    ensures var p := Stretch(c, d, x, y, z);
      Expansion(c + d * x * x, -s * z + d * x * y, s * y + d * x * z,
                Minor0(c, s, d, x, p), Minor1(c, s, d, x, y, z, p), Minor2(c, s, d, x, y, z, p))
        == Times(c * c + s * s * Dot3(x, y, z, x, y, z), p)
  {
    TurnRow(c, s, d, x, y, z, Stretch(c, d, x, y, z));
    TurnCollected(c, s, d, x, y, z, Stretch(c, d, x, y, z));
  }

  lemma TurnReals(c: real, s: real, d: real, x: real, y: real, z: real)
    ensures Det(c + d * x * x, s * z + d * y * x, -s * y + d * z * x,
                -s * z + d * x * y, c + d * y * y, s * x + d * z * y,
                s * y + d * x * z, -s * x + d * y * z, c + d * z * z)
         == Times(c * c + s * s * Dot3(x, y, z, x, y, z), Stretch(c, d, x, y, z))
  {
    TurnMinors(c, s, d, x, y, z);
    DetByMinors(c + d * x * x, s * z + d * y * x, -s * y + d * z * x,
                -s * z + d * x * y, c + d * y * y, s * x + d * z * y,
                s * y + d * x * z, -s * x + d * y * z, c + d * z * z);
    TurnExpanded(c, s, d, x, y, z);
  }

  lemma TurnDeterminant(c: real, s: real, d: real, x: real, y: real, z: real, t: Vector)
    ensures Determinant(Turn(c, s, d, x, y, z, t)) ==
      Times(c * c + s * s * Dot3(x, y, z, x, y, z), Stretch(c, d, x, y, z))
  {
    TurnReals(c, s, d, x, y, z);
  }

  lemma ScaledSquare(x: real, y: real, z: real, s: real)
    ensures Dot3(Times(s, x), Times(s, y), Times(s, z), Times(s, x), Times(s, y), Times(s, z)) == Times(Times(s, s), Dot3(x, y, z, x, y, z))
  {
    assert Dot3(s * x, s * y, s * z, s * x, s * y, s * z) == s * s * (x * x + y * y + z * z);
  }

  lemma SquaresNonNegative(x: real, y: real, z: real)
    ensures Dot3(x, y, z, x, y, z) >= 0.0
  {
  }

  /** Dividing a vector by its nonzero length gives a unit vector. */
  lemma UnitLength(x: real, y: real, z: real, n: real, s: real)
    requires n * n == Dot3(x, y, z, x, y, z) && s * n == 1.0
    ensures Dot3(Times(s, x), Times(s, y), Times(s, z), Times(s, x), Times(s, y), Times(s, z)) == 1.0
  {
    ScaledSquare(x, y, z, s);
    OneSquared(s, n, Dot3(x, y, z, x, y, z));
  }

  lemma OneSquared(s: real, n: real, q: real)
    requires s * n == 1.0 && n * n == q
    ensures Times(Times(s, s), q) == 1.0
  {
    assert s * s * (n * n) == (s * n) * (s * n);
  }

  lemma DivideIsScale(x: real, n: real)
    requires n > 0.0
    ensures x / n == Times(1.0 / n, x) && (1.0 / n) * n == 1.0
  {
  }

  lemma Direction(f: Functions, v: Vector)
    requires Proper(f) && Norm(f, v) > 0.0
    ensures Dot3(v.x / Norm(f, v), v.y / Norm(f, v), v.z / Norm(f, v), v.x / Norm(f, v), v.y / Norm(f, v), v.z / Norm(f, v)) == 1.0
  {
    var n := Norm(f, v);
    SquaresNonNegative(v.x, v.y, v.z);
    DivideIsScale(v.x, n);
    DivideIsScale(v.y, n);
    DivideIsScale(v.z, n);
    UnitLength(v.x, v.y, v.z, n, 1.0 / n);
  }

  /** A Rodrigues increment has determinant 1, a first-order one 1 + |r|^2. */
  lemma DeltaDeterminant(f: Functions, rotation: Vector, translation: Vector)
    requires Proper(f)
    ensures Determinant(Delta(f, rotation, translation)) ==
      if Norm(f, rotation) < SMALL_ANGLE then 1.0 + Dot(rotation, rotation) else 1.0
  {
    var angle := Norm(f, rotation);
    if angle < SMALL_ANGLE {
      FirstOrder(rotation.x, rotation.y, rotation.z);
    } else {
      Direction(f, rotation);
      RodriguesReals(f.cos(angle), f.sin(angle), rotation.x / angle, rotation.y / angle, rotation.z / angle, translation);
    }
  }

  /** How a turn about (x, y, z) moves (a, b, e), coordinate by coordinate. */
  lemma TurnedReals(c: real, s: real, d: real, x: real, y: real, z: real, t0: real, t1: real, t2: real, a: real, b: real, e: real)
    ensures var along := Dot3(x, y, z, a, b, e);
      && Affine(c + d * x * x, -s * z + d * x * y, s * y + d * x * z, t0, a, b, e) ==
           Times(c, a) + Times(s, Minor(y, e, z, b)) + Times(Times(d, along), x) + t0
      && Affine(s * z + d * y * x, c + d * y * y, -s * x + d * y * z, t1, a, b, e) ==
           Times(c, b) + Times(s, Minor(z, a, x, e)) + Times(Times(d, along), y) + t1
      && Affine(-s * y + d * z * x, s * x + d * z * y, c + d * z * z, t2, a, b, e) ==
           Times(c, e) + Times(s, Minor(x, b, y, a)) + Times(Times(d, along), z) + t2
  {
    FirstTurned(c, s, d, x, y, z, t0, a, b, e);
    SecondTurned(c, s, d, x, y, z, t1, a, b, e);
    ThirdTurned(c, s, d, x, y, z, t2, a, b, e);
  }

  lemma FirstTurned(c: real, s: real, d: real, x: real, y: real, z: real, t: real, a: real, b: real, e: real)
    ensures Affine(c + d * x * x, -s * z + d * x * y, s * y + d * x * z, t, a, b, e) ==
      Times(c, a) + Times(s, Minor(y, e, z, b)) + Times(Times(d, Dot3(x, y, z, a, b, e)), x) + t
  {
  }

  lemma SecondTurned(c: real, s: real, d: real, x: real, y: real, z: real, t: real, a: real, b: real, e: real)
    ensures Affine(s * z + d * y * x, c + d * y * y, -s * x + d * y * z, t, a, b, e) ==
      Times(c, b) + Times(s, Minor(z, a, x, e)) + Times(Times(d, Dot3(x, y, z, a, b, e)), y) + t
  {
  }

  lemma ThirdTurned(c: real, s: real, d: real, x: real, y: real, z: real, t: real, a: real, b: real, e: real)
    ensures Affine(-s * y + d * z * x, s * x + d * z * y, c + d * z * z, t, a, b, e) ==
      Times(c, e) + Times(s, Minor(x, b, y, a)) + Times(Times(d, Dot3(x, y, z, a, b, e)), z) + t
  {
  }

  lemma TurnApplied(c: real, s: real, d: real, x: real, y: real, z: real, t: Vector, a: real, b: real, e: real)
    ensures Apply(Turn(c, s, d, x, y, z, t), Vector(a, b, e)) ==
      var along := Times(d, Dot3(x, y, z, a, b, e));
      Vector(Times(c, a) + Times(s, Minor(y, e, z, b)) + Times(along, x) + t.x,
             Times(c, b) + Times(s, Minor(z, a, x, e)) + Times(along, y) + t.y,
             Times(c, e) + Times(s, Minor(x, b, y, a)) + Times(along, z) + t.z)
  {
    TurnedReals(c, s, d, x, y, z, t.x, t.y, t.z, a, b, e);
  }

  function Plus(a: Vector, b: Vector): Vector {
    Vector(a.x + b.x, a.y + b.y, a.z + b.z)
  }

  /** A turn moves v to c v + s k x v + d (k . v) k + t. */
  lemma TurnMeans(c: real, s: real, d: real, k: Vector, t: Vector, v: Vector)
    ensures Apply(Turn(c, s, d, k.x, k.y, k.z, t), v) ==
      Plus(Plus(Plus(Scale(c, v), Scale(s, Cross(k, v))), Scale(Times(d, Dot(k, v)), k)), t)
  {
    TurnApplied(c, s, d, k.x, k.y, k.z, t, v.x, v.y, v.z);
  }

  lemma NoCross(k: Vector)
    ensures Cross(k, k) == Vector(0.0, 0.0, 0.0)
  {
  }

  lemma ScaleSplit(c: real, k: Vector)
    ensures Plus(Scale(c, k), Scale(Times(1.0 - c, 1.0), k)) == k && Scale(Times(1.0 - c, 0.0), k) == Vector(0.0, 0.0, 0.0)
  {
  }

  lemma ScaleZero(s: real)
    ensures Scale(s, Vector(0.0, 0.0, 0.0)) == Vector(0.0, 0.0, 0.0)
  {
  }

  /** A turn about a unit vector leaves it alone and turns what is orthogonal to it, the right-handed way. */
  lemma TurnAboutAxis(c: real, s: real, k: Vector, t: Vector, v: Vector)
    requires Dot(k, k) == 1.0 && Dot(k, v) == 0.0
    ensures Apply(Turn(c, s, 1.0 - c, k.x, k.y, k.z, t), k) == Plus(k, t)
    ensures Apply(Turn(c, s, 1.0 - c, k.x, k.y, k.z, t), v) == Plus(Plus(Scale(c, v), Scale(s, Cross(k, v))), t)
  {
    TurnMeans(c, s, 1.0 - c, k, t, k);
    TurnMeans(c, s, 1.0 - c, k, t, v);
    NoCross(k);
    ScaleZero(s);
    ScaleSplit(c, k);
  }

  /** An increment of ordinary size turns about the unit axis k = r / |r| by |r|, the right-handed way, and then adds the
      translation: it leaves k where it is, and takes a v orthogonal to k to cos v + sin (k x v). */
  lemma DeltaTurns(f: Functions, rotation: Vector, translation: Vector, v: Vector)
    requires Proper(f) && Norm(f, rotation) >= SMALL_ANGLE
    ensures var angle := Norm(f, rotation);
      var k := Vector(rotation.x / angle, rotation.y / angle, rotation.z / angle);
      && Dot(k, k) == 1.0 && Apply(Delta(f, rotation, translation), k) == Plus(k, translation)
      && (Dot(k, v) == 0.0 ==>
            Apply(Delta(f, rotation, translation), v) == Plus(Plus(Scale(f.cos(angle), v), Scale(f.sin(angle), Cross(k, v))), translation))
  {
    var angle := Norm(f, rotation);
    var k := Vector(rotation.x / angle, rotation.y / angle, rotation.z / angle);
    Direction(f, rotation);
    TurnAboutAxis(f.cos(angle), f.sin(angle), k, translation, if Dot(k, v) == 0.0 then v else Vector(0.0, 0.0, 0.0));
  }

  lemma FirstOrder(x: real, y: real, z: real)
    ensures Det(1.0, z, -y, -z, 1.0, x, y, -x, 1.0) == 1.0 + Dot3(x, y, z, x, y, z)
  {
  }

  lemma UnitStretch(c: real, d: real, x: real, y: real, z: real)
    requires Dot3(x, y, z, x, y, z) == 1.0
    ensures Stretch(c, d, x, y, z) == c + d
  {
  }

  lemma RodriguesReals(c: real, s: real, x: real, y: real, z: real, t: Vector)
    requires c * c + s * s == 1.0 && Dot3(x, y, z, x, y, z) == 1.0
    ensures Determinant(Turn(c, s, 1.0 - c, x, y, z, t)) == 1.0
  {
    TurnDeterminant(c, s, 1.0 - c, x, y, z, t);
    UnitStretch(c, 1.0 - c, x, y, z);
  }

  /** The invariant of the iteration. */
  predicate Orientable(m: Matrix) {
    m.last == LAST && Determinant(m) > 0.0
  }

  lemma PositiveProduct(x: real, y: real)
    requires x > 0.0 && y > 0.0
    ensures x * y > 0.0
  {
  }

  /** Every increment keeps it, whichever branch computes it. */
  lemma IncrementKeeps(f: Functions, rotation: Vector, translation: Vector, pose: Matrix)
    requires Proper(f) && Orientable(pose)
    ensures Orientable(Product(Delta(f, rotation, translation), pose))
  {
    var delta := Delta(f, rotation, translation);
    DeltaDeterminant(f, rotation, translation);
    SquaresNonNegative(rotation.x, rotation.y, rotation.z);
    ProductLast(delta, pose);
    ProductDeterminant(delta, pose);
    PositiveProduct(Determinant(delta), Determinant(pose));
  }

  // ----- orthonormalization -----

  function Normalized(f: Functions, v: Vector): Vector {
    var length := Norm(f, v);
    if length > 0.0 then Scale(1.0 / length, v) else Vector(0.0, 0.0, 0.0)
  }

  /** Gram-Schmidt on the first two columns; the third is their cross product. */
  function Orthonormalize(f: Functions, m: Matrix): Matrix {
    var first := Normalized(f, m.x);
    var second := Normalized(f, Minus(m.y, Scale(Dot(m.y, first), first)));
    var third := Normalized(f, Cross(first, second));
    m.(x := first, y := second, z := third)
  }

  predicate Orthonormal(m: Matrix) {
    && Dot(m.x, m.x) == 1.0 && Dot(m.y, m.y) == 1.0 && Dot(m.z, m.z) == 1.0
    && Dot(m.x, m.y) == 0.0 && Dot(m.x, m.z) == 0.0 && Dot(m.y, m.z) == 0.0
  }

  /** A rotation and a translation, exactly. */
  predicate Rigid(m: Matrix) {
    m.last == LAST && Orthonormal(m) && Determinant(m) == 1.0
  }

  lemma NormalizedUnit(f: Functions, v: Vector)
    requires IsRoot(f.root)
    ensures Dot(v, v) > 0.0 ==> Norm(f, v) > 0.0 && Dot(Normalized(f, v), Normalized(f, v)) == 1.0
    ensures Dot(v, v) == 0.0 ==> Normalized(f, v) == Vector(0.0, 0.0, 0.0)
  {
    var n := Norm(f, v);
    if Dot(v, v) > 0.0 {
      assert n * n == Dot(v, v);
      if n > 0.0 {
        DivideIsScale(v.x, n);
        UnitLength(v.x, v.y, v.z, n, 1.0 / n);
      }
    } else if Dot(v, v) == 0.0 {
      assert n * n == 0.0;
      NoRoot(n);
    }
  }

  function SquaredCross(x0: real, x1: real, x2: real, y0: real, y1: real, y2: real): real {
    Dot3(Minor(x1, y2, x2, y1), Minor(x2, y0, x0, y2), Minor(x0, y1, x1, y0),
         Minor(x1, y2, x2, y1), Minor(x2, y0, x0, y2), Minor(x0, y1, x1, y0))
  }

  lemma Lagrange(x0: real, x1: real, x2: real, y0: real, y1: real, y2: real)
    ensures SquaredCross(x0, x1, x2, y0, y1, y2) ==
      Times(Dot3(x0, x1, x2, x0, x1, x2), Dot3(y0, y1, y2, y0, y1, y2)) - Times(Dot3(x0, x1, x2, y0, y1, y2), Dot3(x0, x1, x2, y0, y1, y2))
  {
    assert Dot3(x1 * y2 - x2 * y1, x2 * y0 - x0 * y2, x0 * y1 - x1 * y0, x1 * y2 - x2 * y1, x2 * y0 - x0 * y2, x0 * y1 - x1 * y0) ==
      (x0 * x0 + x1 * x1 + x2 * x2) * (y0 * y0 + y1 * y1 + y2 * y2)
      - (x0 * y0 + x1 * y1 + x2 * y2) * (x0 * y0 + x1 * y1 + x2 * y2);
    var a, b, c := Dot3(x0, x1, x2, x0, x1, x2), Dot3(y0, y1, y2, y0, y1, y2), Dot3(x0, x1, x2, y0, y1, y2);
    assert a == x0 * x0 + x1 * x1 + x2 * x2 && b == y0 * y0 + y1 * y1 + y2 * y2 && c == x0 * y0 + x1 * y1 + x2 * y2;
  }

  /** What is left of y without its part along the unit vector f. */
  lemma RejectedDot(f0: real, f1: real, f2: real, y0: real, y1: real, y2: real, p: real)
    requires Dot3(f0, f1, f2, f0, f1, f2) == 1.0 && p == Dot3(y0, y1, y2, f0, f1, f2)
    ensures Dot3(y0 - p * f0, y1 - p * f1, y2 - p * f2, f0, f1, f2) == 0.0
  {
    var q := Dot3(f0, f1, f2, f0, f1, f2);
    assert Dot3(y0 - p * f0, y1 - p * f1, y2 - p * f2, f0, f1, f2) == p - p * q;
  }

  lemma RejectedSquare(f0: real, f1: real, f2: real, y0: real, y1: real, y2: real, p: real)
    requires Dot3(f0, f1, f2, f0, f1, f2) == 1.0 && p == Dot3(y0, y1, y2, f0, f1, f2)
    ensures Dot3(y0 - p * f0, y1 - p * f1, y2 - p * f2, y0 - p * f0, y1 - p * f1, y2 - p * f2) ==
      Dot3(y0, y1, y2, y0, y1, y2) - Times(p, p)
  {
    var q, d := Dot3(f0, f1, f2, f0, f1, f2), Dot3(y0, y1, y2, f0, f1, f2);
    assert Dot3(y0 - p * f0, y1 - p * f1, y2 - p * f2, y0 - p * f0, y1 - p * f1, y2 - p * f2) ==
      Dot3(y0, y1, y2, y0, y1, y2) - 2.0 * p * d + p * p * q;
  }

  /** A vector without length is the zero vector. */
  lemma NoLength(v: Vector)
    ensures Dot(v, v) >= 0.0
    ensures Dot(v, v) == 0.0 <==> v == Vector(0.0, 0.0, 0.0)
  {
    SquaresNonNegative(v.x, v.y, v.z);
    NoLengthReals(v.x, v.y, v.z);
  }

  lemma NoLengthReals(x: real, y: real, z: real)
    ensures Dot3(x, y, z, x, y, z) == 0.0 <==> x == 0.0 && y == 0.0 && z == 0.0
  {
    SquareZero(x);
    SquareZero(y);
    SquareZero(z);
  }

  lemma SquareZero(x: real)
    ensures x * x >= 0.0 && (x * x == 0.0 <==> x == 0.0)
  {
    if x * x == 0.0 {
      if x > 0.0 {
        ZeroProduct(x, x);
      } else if x < 0.0 {
        ZeroProduct(x, -x);
      }
    }
  }

  function Rejection(f: Functions, x: Vector, y: Vector): Vector {
    var first := Normalized(f, x);
    Minus(y, Scale(Dot(y, first), first))
  }

  lemma RejectionFacts(f: Functions, x: Vector, y: Vector)
    requires IsRoot(f.root) && Dot(x, x) > 0.0
    ensures var first, v := Normalized(f, x), Rejection(f, x, y);
      && Dot(first, first) == 1.0 && Dot(v, first) == 0.0
      && Dot(v, v) == Dot(y, y) - Times(Dot(y, first), Dot(y, first))
  {
    var first := Normalized(f, x);
    var p := Dot(y, first);
    assert Rejection(f, x, y) == Vector(y.x - p * first.x, y.y - p * first.y, y.z - p * first.z);
    NormalizedUnit(f, x);
    RejectedReals(first, y, p);
  }

  lemma RejectedReals(first: Vector, y: Vector, p: real)
    requires Dot(first, first) == 1.0 && p == Dot(y, first)
    ensures var v := Vector(y.x - p * first.x, y.y - p * first.y, y.z - p * first.z);
      Dot(v, first) == 0.0 && Dot(v, v) == Dot(y, y) - Times(p, p)
  {
    RejectedDot(first.x, first.y, first.z, y.x, y.y, y.z, p);
    RejectedSquare(first.x, first.y, first.z, y.x, y.y, y.z, p);
  }

  lemma AlongFirst(x0: real, x1: real, x2: real, y0: real, y1: real, y2: real, s: real)
    ensures Dot3(y0, y1, y2, Times(s, x0), Times(s, x1), Times(s, x2)) == Times(s, Dot3(x0, x1, x2, y0, y1, y2))
  {
    assert Dot3(y0, y1, y2, s * x0, s * x1, s * x2) == s * (x0 * y0 + x1 * y1 + x2 * y2);
  }

  lemma RejectionReals(n: real, s: real, xx: real, yy: real, xy: real, p: real, vv: real, cc: real)
    requires s * n == 1.0 && n * n == xx && p == Times(s, xy) && vv == yy - Times(p, p) && cc == Times(xx, yy) - Times(xy, xy)
    ensures Times(xx, vv) == cc
  {
    assert xx * (p * p) == (s * n) * (s * n) * (xy * xy);
  }

  /** |x|^2 times what is left of y is |x cross y|^2. */
  lemma RejectionIsCross(f: Functions, x: Vector, y: Vector)
    requires IsRoot(f.root) && Dot(x, x) > 0.0
    ensures Times(Dot(x, x), Dot(Rejection(f, x, y), Rejection(f, x, y))) == Dot(Cross(x, y), Cross(x, y))
  {
    var n := Norm(f, x);
    var first := Normalized(f, x);
    NormalizedUnit(f, x);
    RejectionFacts(f, x, y);
    DivideIsScale(x.x, n);
    AlongFirst(x.x, x.y, x.z, y.x, y.y, y.z, 1.0 / n);
    Lagrange(x.x, x.y, x.z, y.x, y.y, y.z);
    RejectionReals(n, 1.0 / n, Dot(x, x), Dot(y, y), Dot(x, y), Dot(y, first),
                   Dot(Rejection(f, x, y), Rejection(f, x, y)), Dot(Cross(x, y), Cross(x, y)));
  }

  lemma CrossOrthogonal(x0: real, x1: real, x2: real, y0: real, y1: real, y2: real)
    ensures Dot3(x0, x1, x2, Minor(x1, y2, x2, y1), Minor(x2, y0, x0, y2), Minor(x0, y1, x1, y0)) == 0.0
    ensures Dot3(y0, y1, y2, Minor(x1, y2, x2, y1), Minor(x2, y0, x0, y2), Minor(x0, y1, x1, y0)) == 0.0
  {
    assert Dot3(x0, x1, x2, x1 * y2 - x2 * y1, x2 * y0 - x0 * y2, x0 * y1 - x1 * y0) == 0.0;
    assert Dot3(y0, y1, y2, x1 * y2 - x2 * y1, x2 * y0 - x0 * y2, x0 * y1 - x1 * y0) == 0.0;
  }

  /** The determinant is the third column against the cross product of the first two. */
  lemma DetIsTriple(x0: real, x1: real, x2: real, y0: real, y1: real, y2: real, z0: real, z1: real, z2: real)
    ensures Det(x0, x1, x2, y0, y1, y2, z0, z1, z2) ==
      Dot3(z0, z1, z2, Minor(x1, y2, x2, y1), Minor(x2, y0, x0, y2), Minor(x0, y1, x1, y0))
  {
    assert Det(x0, x1, x2, y0, y1, y2, z0, z1, z2) ==
      Dot3(z0, z1, z2, x1 * y2 - x2 * y1, x2 * y0 - x0 * y2, x0 * y1 - x1 * y0);
  }

  lemma UnitRoot(f: Functions)
    requires IsRoot(f.root)
    ensures f.root(1.0) == 1.0
  {
    var n := f.root(1.0);
    assert n >= 0.0 && n * n == 1.0;
    assert (n - 1.0) * (n + 1.0) == 0.0;
    ZeroProduct(n - 1.0, n + 1.0);
  }

  /** The cross product of two orthonormal vectors is a unit vector already. */
  lemma CrossIsUnit(f: Functions, a: Vector, b: Vector)
    requires IsRoot(f.root) && Dot(a, a) == 1.0 && Dot(b, b) == 1.0 && Dot(a, b) == 0.0
    ensures Dot(Cross(a, b), Cross(a, b)) == 1.0 && Normalized(f, Cross(a, b)) == Cross(a, b)
  {
    Lagrange(a.x, a.y, a.z, b.x, b.y, b.z);
    UnitRoot(f);
  }

  lemma DotScaled(a: Vector, v: Vector, s: real)
    requires Dot(v, a) == 0.0
    ensures Dot(a, Scale(s, v)) == 0.0
  {
    AlongFirst(v.x, v.y, v.z, a.x, a.y, a.z, s);
  }

  /** The first two steps of Gram-Schmidt, for independent columns. */
  lemma FirstTwo(f: Functions, x: Vector, y: Vector)
    requires IsRoot(f.root) && Dot(Cross(x, y), Cross(x, y)) > 0.0
    ensures var first, second := Normalized(f, x), Normalized(f, Rejection(f, x, y));
      Dot(first, first) == 1.0 && Dot(second, second) == 1.0 && Dot(first, second) == 0.0
  {
    NoLength(x);
    Lagrange(x.x, x.y, x.z, y.x, y.y, y.z);
    if Dot(x, x) == 0.0 {
      ZeroCross(x, y);
    }
    var first, v := Normalized(f, x), Rejection(f, x, y);
    RejectionFacts(f, x, y);
    RejectionIsCross(f, x, y);
    NoLength(v);
    NormalizedUnit(f, v);
    DotScaled(first, v, 1.0 / Norm(f, v));
  }

  lemma ZeroCross(x: Vector, y: Vector)
    requires x == Vector(0.0, 0.0, 0.0)
    ensures Dot(Cross(x, y), Cross(x, y)) == 0.0
  {
  }

  /** orthonormalize delivers a rotation exactly when the first two columns are independent. */
  lemma OrthonormalizeIsRigid(f: Functions, m: Matrix)
    requires IsRoot(f.root) && m.last == LAST
    ensures Rigid(Orthonormalize(f, m)) <==> Dot(Cross(m.x, m.y), Cross(m.x, m.y)) > 0.0
  {
    if Dot(Cross(m.x, m.y), Cross(m.x, m.y)) > 0.0 {
      IndependentIsRigid(f, m);
    } else {
      NoLength(Cross(m.x, m.y));
      DependentIsNot(f, m);
    }
  }

  lemma IndependentIsRigid(f: Functions, m: Matrix)
    requires IsRoot(f.root) && m.last == LAST && Dot(Cross(m.x, m.y), Cross(m.x, m.y)) > 0.0
    ensures Rigid(Orthonormalize(f, m))
  {
    var a, b := Normalized(f, m.x), Normalized(f, Rejection(f, m.x, m.y));
    FirstTwo(f, m.x, m.y);
    CrossIsUnit(f, a, b);
    CrossOrthogonal(a.x, a.y, a.z, b.x, b.y, b.z);
    var c := Cross(a, b);
    DetIsTriple(a.x, a.y, a.z, b.x, b.y, b.z, c.x, c.y, c.z);
  }

  lemma DependentIsNot(f: Functions, m: Matrix)
    requires IsRoot(f.root) && Dot(Cross(m.x, m.y), Cross(m.x, m.y)) == 0.0
    ensures !Orthonormal(Orthonormalize(f, m))
    ensures var n := Orthonormalize(f, m); Dot(n.x, n.x) == 0.0 || Dot(n.y, n.y) == 0.0
  {
    NoLength(m.x);
    NormalizedUnit(f, m.x);
    if Dot(m.x, m.x) > 0.0 {
      var v := Rejection(f, m.x, m.y);
      RejectionIsCross(f, m.x, m.y);
      ZeroProduct(Dot(v, v), Dot(m.x, m.x));
      NormalizedUnit(f, v);
    }
  }

  /** A nonzero determinant makes the first two columns independent. */
  lemma IndependentColumns(m: Matrix)
    requires Determinant(m) != 0.0
    ensures Dot(Cross(m.x, m.y), Cross(m.x, m.y)) > 0.0
  {
    NoLength(Cross(m.x, m.y));
    DetIsTriple(m.x.x, m.x.y, m.x.z, m.y.x, m.y.y, m.y.z, m.z.x, m.z.y, m.z.z);
    if Cross(m.x, m.y) == Vector(0.0, 0.0, 0.0) {
      DotZero(m.z, Cross(m.x, m.y));
    }
  }

  lemma DotZero(a: Vector, b: Vector)
    requires b == Vector(0.0, 0.0, 0.0)
    ensures Dot(a, b) == 0.0
  {
  }

  predicate Independent(m: Matrix) {
    Dot(Cross(m.x, m.y), Cross(m.x, m.y)) > 0.0
  }

  /** Orthonormalizing touches the rotation only, and delivers one exactly for independent columns. */
  lemma OrthonormalizeIsRotation(f: Functions, m: Matrix)
    requires IsRoot(f.root)
    ensures var n := Orthonormalize(f, m);
      && n.last == m.last
      && (Independent(m) ==> Orthonormal(n) && Determinant(n) == 1.0)
      && (!Independent(m) ==> Dot(n.x, n.x) == 0.0 || Dot(n.y, n.y) == 0.0)
  {
    var exact := m.(last := LAST);
    assert Orthonormalize(f, exact) == Orthonormalize(f, m).(last := LAST);
    if Independent(m) {
      IndependentIsRigid(f, exact);
    } else {
      NoLength(Cross(m.x, m.y));
      DependentIsNot(f, m);
    }
  }

  // ----- poses with an inexact last row -----

  /** Only the first two entries of the last row reach the first two columns of a product. */
  lemma ScaleBack(f: Functions, v: Vector)
    requires IsRoot(f.root) && Dot(v, v) > 0.0
    ensures Norm(f, v) > 0.0 && Scale(Norm(f, v), Normalized(f, v)) == v
  {
    var n := Norm(f, v);
    NormalizedUnit(f, v);
    BackToReal(n, v.x);
    BackToReal(n, v.y);
    BackToReal(n, v.z);
  }

  lemma BackToReal(n: real, x: real)
    requires n > 0.0
    ensures Times(n, Times(1.0 / n, x)) == x
  {
    DivideIsScale(x, n);
    assert n * (1.0 / n * x) == (1.0 / n) * n * x;
  }

  lemma PlusRejection(y: Vector, p: Vector)
    ensures Plus(p, Minus(y, p)) == y
  {
  }

  /** What it does to independent columns: the first keeps its direction, the second its side of the first, and the
      translation stays. */
  lemma OrthonormalizeMeans(f: Functions, m: Matrix) returns (a: real, b: real, c: real)
    requires IsRoot(f.root)
    ensures Orthonormalize(f, m).t == m.t && Orthonormalize(f, m).last == m.last
    ensures Dot(Cross(m.x, m.y), Cross(m.x, m.y)) > 0.0 ==>
      var n := Orthonormalize(f, m);
      && a > 0.0 && m.x == Scale(a, n.x)
      && c > 0.0 && m.y == Plus(Scale(b, n.x), Scale(c, n.y))
  {
    a, b, c := Norm(f, m.x), Dot(m.y, Normalized(f, m.x)), Norm(f, Rejection(f, m.x, m.y));
    if Dot(Cross(m.x, m.y), Cross(m.x, m.y)) > 0.0 {
      NoLength(m.x);
      if Dot(m.x, m.x) == 0.0 {
        ZeroCross(m.x, m.y);
      }
      ScaleBack(f, m.x);
      RejectionIsCross(f, m.x, m.y);
      NoLength(Rejection(f, m.x, m.y));
      ScaleBack(f, Rejection(f, m.x, m.y));
      PlusRejection(m.y, Scale(b, Normalized(f, m.x)));
    }
  }

  lemma ScaleOne(v: Vector)
    ensures Scale(1.0 / 1.0, v) == v
  {
  }

  lemma MinusNothing(y: Vector, x: Vector)
    ensures Minus(y, Scale(0.0, x)) == y
  {
  }

  /** A pose that is rigid stays as it is. */
  lemma OrthonormalizeKeepsRigid(f: Functions, m: Matrix)
    requires IsRoot(f.root) && Rigid(m)
    ensures Orthonormalize(f, m) == m
  {
    UnitRoot(f);
    ScaleOne(m.x);
    ScaleOne(m.y);
    DotSymmetric(m.x, m.y);
    MinusNothing(m.y, m.x);
    CrossIsUnit(f, m.x, m.y);
    ThirdColumn(m);
  }

  lemma ColumnsIgnoreRest(left: Matrix, m: Matrix, n: Matrix)
    requires left.last == LAST && n.last == LAST && m.last.x == 0.0 && m.last.y == 0.0 && n.x == m.x && n.y == m.y
    ensures Product(left, m).x == Product(left, n).x && Product(left, m).y == Product(left, n).y
  {
  }

  lemma LastStays(left: Matrix, m: Matrix)
    requires left.last == LAST
    ensures Product(left, m).last == m.last
  {
  }

  lemma CompletedIsOrientable(m: Matrix)
    requires Independent(m)
    ensures Orientable(m.(z := Cross(m.x, m.y), last := LAST))
  {
    var c := Cross(m.x, m.y);
    DetIsTriple(m.x.x, m.x.y, m.x.z, m.y.x, m.y.y, m.y.z, c.x, c.y, c.z);
  }

  /** With those two entries zero, an increment keeps the first two columns independent. */
  lemma IncrementKeepsIndependent(f: Functions, rotation: Vector, translation: Vector, m: Matrix)
    requires Proper(f) && Independent(m) && m.last.x == 0.0 && m.last.y == 0.0
    ensures var n := Product(Delta(f, rotation, translation), m); Independent(n) && n.last == m.last
  {
    var delta, completed := Delta(f, rotation, translation), m.(z := Cross(m.x, m.y), last := LAST);
    CompletedIsOrientable(m);
    IncrementKeeps(f, rotation, translation, completed);
    IndependentColumns(Product(delta, completed));
    ColumnsIgnoreRest(delta, m, completed);
    LastStays(delta, m);
  }

  /** Cancels a column: the translation that a last-row entry turns against it. */
  function Against(v: Vector, entry: real): Vector
    requires entry != 0.0
  {
    Vector(-v.x / entry, -v.y / entry, -v.z / entry)
  }

  lemma CancelReals(v: real, entry: real, a: real, b: real)
    requires entry != 0.0
    ensures Dot4(1.0, v, 0.0, a, 0.0, b, -v / entry, entry) == 0.0
    ensures Dot4(0.0, a, 1.0, v, 0.0, b, -v / entry, entry) == 0.0
    ensures Dot4(0.0, a, 0.0, b, 1.0, v, -v / entry, entry) == 0.0
  {
    var q := -v / entry;
    assert q * entry == -v;
  }

  lemma PureTranslation(f: Functions, t: Vector)
    requires Proper(f)
    ensures Delta(f, Vector(0.0, 0.0, 0.0), t) == IDENTITY.(t := t)
  {
    NoRoot(f.root(0.0));
  }

  /** With one of them nonzero, some translation makes the first two columns dependent. */
  lemma TranslationDestroys(f: Functions, m: Matrix) returns (t: Vector)
    requires Proper(f) && (m.last.x != 0.0 || m.last.y != 0.0)
    ensures !Independent(Product(Delta(f, Vector(0.0, 0.0, 0.0), t), m))
  {
    if m.last.x != 0.0 {
      t := Against(m.x, m.last.x);
      PureTranslation(f, t);
      CancelReals(m.x.x, m.last.x, m.x.y, m.x.z);
      CancelReals(m.x.y, m.last.x, m.x.x, m.x.z);
      CancelReals(m.x.z, m.last.x, m.x.x, m.x.y);
      var n := Product(Delta(f, Vector(0.0, 0.0, 0.0), t), m);
      ZeroCross(n.x, n.y);
    } else {
      t := Against(m.y, m.last.y);
      PureTranslation(f, t);
      CancelReals(m.y.x, m.last.y, m.y.y, m.y.z);
      CancelReals(m.y.y, m.last.y, m.y.x, m.y.z);
      CancelReals(m.y.z, m.last.y, m.y.x, m.y.y);
      var n := Product(Delta(f, Vector(0.0, 0.0, 0.0), t), m);
      CrossZero(n.x, n.y);
    }
  }

  lemma CrossZero(x: Vector, y: Vector)
    requires y == Vector(0.0, 0.0, 0.0)
    ensures Dot(Cross(x, y), Cross(x, y)) == 0.0
  {
  }

  // ----- inverses -----

  /** inverse_rigid: the transposed rotation and the rotated, negated translation. */
  function InverseRigid(m: Matrix): Matrix {
    Matrix(Vector(m.x.x, m.y.x, m.z.x), Vector(m.x.y, m.y.y, m.z.y), Vector(m.x.z, m.y.z, m.z.z),
           Vector(-Dot(m.x, m.t), -Dot(m.y, m.t), -Dot(m.z, m.t)), LAST)
  }

  /** In a rotation the third column is the cross product of the others. */
  lemma ThirdColumn(m: Matrix)
    requires Rigid(m)
    ensures m.z == Cross(m.x, m.y)
  {
    var c := Cross(m.x, m.y);
    DetIsTriple(m.x.x, m.x.y, m.x.z, m.y.x, m.y.y, m.y.z, m.z.x, m.z.y, m.z.z);
    Lagrange(m.x.x, m.x.y, m.x.z, m.y.x, m.y.y, m.y.z);
    assert Dot(c, c) == 1.0 && Dot(m.z, c) == 1.0;
    DifferenceSquare(m.z.x, m.z.y, m.z.z, c.x, c.y, c.z);
    NoLength(Minus(m.z, c));
  }

  lemma DifferenceSquare(a: real, b: real, c: real, x: real, y: real, z: real)
    ensures Dot3(a - x, b - y, c - z, a - x, b - y, c - z) ==
      Dot3(a, b, c, a, b, c) - 2.0 * Dot3(a, b, c, x, y, z) + Dot3(x, y, z, x, y, z)
  {
  }

  lemma RowSquare(x0: real, x1: real, x2: real, y0: real, y1: real, y2: real, z0: real)
    requires Dot3(x0, x1, x2, x0, x1, x2) == 1.0 && Dot3(y0, y1, y2, y0, y1, y2) == 1.0 && Dot3(x0, x1, x2, y0, y1, y2) == 0.0
    requires z0 == Minor(x1, y2, x2, y1)
    ensures Dot3(x0, y0, z0, x0, y0, z0) == 1.0
  {
    RowSquareReals(x0, y0, x1 * x1 + x2 * x2, y1 * y1 + y2 * y2, x1 * y1 + x2 * y2);
    assert z0 * z0 == (x1 * x1 + x2 * x2) * (y1 * y1 + y2 * y2) - (x1 * y1 + x2 * y2) * (x1 * y1 + x2 * y2);
  }

  lemma RowSquareReals(x: real, y: real, p: real, q: real, r: real)
    requires x * x + p == 1.0 && y * y + q == 1.0 && x * y + r == 0.0
    ensures x * x + y * y + (p * q - r * r) == 1.0
  {
    assert p * q == (1.0 - x * x) * (1.0 - y * y) && r * r == (x * y) * (x * y);
  }

  lemma RowProduct(x0: real, x1: real, x2: real, y0: real, y1: real, y2: real, z0: real, z1: real)
    requires Dot3(x0, x1, x2, x0, x1, x2) == 1.0 && Dot3(y0, y1, y2, y0, y1, y2) == 1.0 && Dot3(x0, x1, x2, y0, y1, y2) == 0.0
    requires z0 == Minor(x1, y2, x2, y1) && z1 == Minor(x2, y0, x0, y2)
    ensures Dot3(x0, y0, z0, x1, y1, z1) == 0.0
  {
    RowProductReals(x0, x1, y0, y1, x2 * y2, y2 * y2, x2 * x2);
    assert z0 * z1 == (x2 * y2) * (x1 * y0 + x0 * y1) - x0 * x1 * (y2 * y2) - (x2 * x2) * (y0 * y1);
  }

  lemma RowProductReals(x0: real, x1: real, y0: real, y1: real, a: real, b: real, c: real)
    requires a == -(x0 * y0 + x1 * y1) && b == 1.0 - y0 * y0 - y1 * y1 && c == 1.0 - x0 * x0 - x1 * x1
    ensures x0 * x1 + y0 * y1 + (a * (x1 * y0 + x0 * y1) - x0 * x1 * b - c * (y0 * y1)) == 0.0
  {
    assert a * (x1 * y0 + x0 * y1) == -(x0 * y0 + x1 * y1) * (x1 * y0 + x0 * y1);
    assert x0 * x1 * b == x0 * x1 * (1.0 - y0 * y0 - y1 * y1);
    assert c * (y0 * y1) == (1.0 - x0 * x0 - x1 * x1) * (y0 * y1);
  }

  /** The rows of a rotation are orthonormal too. */
  lemma RowsOrthonormal(m: Matrix)
    requires Rigid(m)
    ensures var i := InverseRigid(m);
      && Dot(i.x, i.x) == 1.0 && Dot(i.y, i.y) == 1.0 && Dot(i.z, i.z) == 1.0
      && Dot(i.x, i.y) == 0.0 && Dot(i.y, i.z) == 0.0 && Dot(i.z, i.x) == 0.0
  {
    ThirdColumn(m);
    var x, y, z := m.x, m.y, m.z;
    RowSquare(x.x, x.y, x.z, y.x, y.y, y.z, z.x);
    RowSquare(x.y, x.z, x.x, y.y, y.z, y.x, z.y);
    RowSquare(x.z, x.x, x.y, y.z, y.x, y.y, z.z);
    RowProduct(x.x, x.y, x.z, y.x, y.y, y.z, z.x, z.y);
    RowProduct(x.y, x.z, x.x, y.y, y.z, y.x, z.y, z.z);
    RowProduct(x.z, x.x, x.y, y.z, y.x, y.y, z.z, z.x);
  }

  lemma DotFour(a0: real, a1: real, a2: real, b0: real, b1: real, b2: real, t: real)
    ensures Dot4(a0, b0, a1, b1, a2, b2, t, 0.0) == Dot3(a0, a1, a2, b0, b1, b2)
    ensures Dot4(a0, b0, a1, b1, a2, b2, t, 1.0) == Dot3(a0, a1, a2, b0, b1, b2) + t
  {
  }

  lemma DotSymmetric(a: Vector, b: Vector)
    ensures Dot(a, b) == Dot(b, a)
  {
  }

  /** One column of a product with a matrix whose last row is exact. */
  lemma ColumnTimes(left: Matrix, right: Matrix, v: Vector, column: nat)
    requires right.last == LAST && column < 4 && v == ColumnOf(right, column)
    ensures ProductColumn(left, right, column) == Vector(
      Dot3(left.x.x, left.y.x, left.z.x, v.x, v.y, v.z) + if column == 3 then left.t.x else 0.0,
      Dot3(left.x.y, left.y.y, left.z.y, v.x, v.y, v.z) + if column == 3 then left.t.y else 0.0,
      Dot3(left.x.z, left.y.z, left.z.z, v.x, v.y, v.z) + if column == 3 then left.t.z else 0.0)
  {
    DotFour(left.x.x, left.y.x, left.z.x, v.x, v.y, v.z, left.t.x);
    DotFour(left.x.y, left.y.y, left.z.y, v.x, v.y, v.z, left.t.y);
    DotFour(left.x.z, left.y.z, left.z.z, v.x, v.y, v.z, left.t.z);
  }

  lemma ProductByColumns(left: Matrix, right: Matrix)
    requires left.last == LAST && right.last == LAST
    requires ProductColumn(left, right, 0) == IDENTITY.x && ProductColumn(left, right, 1) == IDENTITY.y
    requires ProductColumn(left, right, 2) == IDENTITY.z && ProductColumn(left, right, 3) == IDENTITY.t
    ensures Product(left, right) == IDENTITY
  {
    ProductLast(left, right);
  }

  lemma InverseIsLeft(m: Matrix)
    requires m.last == LAST && Orthonormal(m)
    ensures Product(InverseRigid(m), m) == IDENTITY
  {
    var i := InverseRigid(m);
    ColumnTimes(i, m, m.x, 0);
    ColumnTimes(i, m, m.y, 1);
    ColumnTimes(i, m, m.z, 2);
    ColumnTimes(i, m, m.t, 3);
    DotSymmetric(m.x, m.y);
    DotSymmetric(m.x, m.z);
    DotSymmetric(m.y, m.z);
    ProductByColumns(i, m);
  }

  lemma BackReals(a: real, b: real, c: real, x0: real, x1: real, x2: real, y0: real, y1: real, y2: real,
                  z0: real, z1: real, z2: real, t0: real, t1: real, t2: real)
    ensures Dot3(a, b, c, -Dot3(x0, x1, x2, t0, t1, t2), -Dot3(y0, y1, y2, t0, t1, t2), -Dot3(z0, z1, z2, t0, t1, t2)) ==
      -(Times(Dot3(a, b, c, x0, y0, z0), t0) + Times(Dot3(a, b, c, x1, y1, z1), t1) + Times(Dot3(a, b, c, x2, y2, z2), t2))
  {
    assert Dot3(a, b, c, -(x0 * t0 + x1 * t1 + x2 * t2), -(y0 * t0 + y1 * t1 + y2 * t2), -(z0 * t0 + z1 * t1 + z2 * t2)) ==
      -(Times(a * x0 + b * y0 + c * z0, t0) + Times(a * x1 + b * y1 + c * z1, t1) + Times(a * x2 + b * y2 + c * z2, t2));
  }

  lemma InverseIsRight(m: Matrix)
    requires Rigid(m)
    ensures Product(m, InverseRigid(m)) == IDENTITY
  {
    var i, t := InverseRigid(m), m.t;
    RowsOrthonormal(m);
    DotSymmetric(i.x, i.y);
    DotSymmetric(i.y, i.z);
    DotSymmetric(i.z, i.x);
    ColumnTimes(m, i, i.x, 0);
    ColumnTimes(m, i, i.y, 1);
    ColumnTimes(m, i, i.z, 2);
    ColumnTimes(m, i, i.t, 3);
    BackReals(i.x.x, i.x.y, i.x.z, m.x.x, m.x.y, m.x.z, m.y.x, m.y.y, m.y.z, m.z.x, m.z.y, m.z.z, t.x, t.y, t.z);
    BackReals(i.y.x, i.y.y, i.y.z, m.x.x, m.x.y, m.x.z, m.y.x, m.y.y, m.y.z, m.z.x, m.z.y, m.z.z, t.x, t.y, t.z);
    BackReals(i.z.x, i.z.y, i.z.z, m.x.x, m.x.y, m.x.z, m.y.x, m.y.y, m.y.z, m.z.x, m.z.y, m.z.z, t.x, t.y, t.z);
    ProductByColumns(m, i);
  }

  /** inverse_rigid is a two-sided inverse of every rigid pose. */
  lemma InverseIsTwoSided(m: Matrix)
    requires Rigid(m)
    ensures Product(InverseRigid(m), m) == IDENTITY && Product(m, InverseRigid(m)) == IDENTITY
  {
    InverseIsLeft(m);
    InverseIsRight(m);
  }

  // ----- RigidTransform::create -----

  datatype TransformError = BadTolerance | NotFinite | BadLastRow | NotOrthonormal | BadDeterminant

  predicate Near(a: real, b: real, tolerance: real) {
    -tolerance <= a - b <= tolerance
  }

  function Expected(row: nat, column: nat): real {
    if row == column then 1.0 else 0.0
  }

  predicate LastNear(m: Matrix, tolerance: real) {
    && Near(m.last.x, 0.0, tolerance) && Near(m.last.y, 0.0, tolerance) && Near(m.last.z, 0.0, tolerance)
    && Near(m.last.w, 1.0, tolerance)
  }

  predicate ColumnsNear(m: Matrix, tolerance: real) {
    forall row: nat, column: nat :: row < 3 && column < 3 ==>
      Near(Dot(ColumnOf(m, row), ColumnOf(m, column)), Expected(row, column), tolerance)
  }

  /** The tolerance test of the public contract. */
  predicate Accepted(m: Matrix, tolerance: real) {
    LastNear(m, tolerance) && ColumnsNear(m, tolerance) && Near(Determinant(m), 1.0, tolerance)
  }

  /** It bounds every number by which the matrix misses a rigid one. */
  lemma AcceptedMeans(m: Matrix, tolerance: real)
    ensures Accepted(m, tolerance) <==>
      && Abs(m.last.x) <= tolerance && Abs(m.last.y) <= tolerance && Abs(m.last.z) <= tolerance && Abs(m.last.w - 1.0) <= tolerance
      && Abs(Dot(m.x, m.x) - 1.0) <= tolerance && Abs(Dot(m.y, m.y) - 1.0) <= tolerance && Abs(Dot(m.z, m.z) - 1.0) <= tolerance
      && Abs(Dot(m.x, m.y)) <= tolerance && Abs(Dot(m.x, m.z)) <= tolerance && Abs(Dot(m.y, m.z)) <= tolerance
      && Abs(Determinant(m) - 1.0) <= tolerance
  {
    DotSymmetric(m.x, m.y);
    DotSymmetric(m.x, m.z);
    DotSymmetric(m.y, m.z);
    if Accepted(m, tolerance) {
      assert Near(Dot(ColumnOf(m, 0), ColumnOf(m, 0)), Expected(0, 0), tolerance);
      assert Near(Dot(ColumnOf(m, 1), ColumnOf(m, 1)), Expected(1, 1), tolerance);
      assert Near(Dot(ColumnOf(m, 2), ColumnOf(m, 2)), Expected(2, 2), tolerance);
      assert Near(Dot(ColumnOf(m, 0), ColumnOf(m, 1)), Expected(0, 1), tolerance);
      assert Near(Dot(ColumnOf(m, 0), ColumnOf(m, 2)), Expected(0, 2), tolerance);
      assert Near(Dot(ColumnOf(m, 1), ColumnOf(m, 2)), Expected(1, 2), tolerance);
    }
  }

  /** The columns' dot product, accumulated index by index. */
  function PartialDot(m: Matrix, row: nat, column: nat, n: nat): real {
    if n == 0 then 0.0 else PartialDot(m, row, column, n - 1) + At(m, n - 1, row) * At(m, n - 1, column)
  }

  lemma PartialDotIsDot(m: Matrix, row: nat, column: nat)
    requires row < 3 && column < 3
    ensures PartialDot(m, row, column, 3) == Dot(ColumnOf(m, row), ColumnOf(m, column))
  {
    assert PartialDot(m, row, column, 1) == 0.0 + At(m, 0, row) * At(m, 0, column);
    assert PartialDot(m, row, column, 2) == PartialDot(m, row, column, 1) + At(m, 1, row) * At(m, 1, column);
  }

  /** The checks of create on finite elements. */
  method CheckMatrix(m: Matrix, tolerance: real) returns (r: Result<Matrix, TransformError>)
    ensures r.Success? <==> Accepted(m, tolerance)
    ensures r.Success? ==> r.value == m
    ensures r == Failure(BadLastRow) <==> !LastNear(m, tolerance)
    ensures r == Failure(NotOrthonormal) <==> LastNear(m, tolerance) && !ColumnsNear(m, tolerance)
    ensures r == Failure(BadDeterminant) <==> LastNear(m, tolerance) && ColumnsNear(m, tolerance) && !Near(Determinant(m), 1.0, tolerance)
  {
    if !LastNear(m, tolerance) {
      return Failure(BadLastRow);
    }
    for row := 0 to 3
      invariant forall r: nat, c: nat :: r < row && c < 3 ==> Near(Dot(ColumnOf(m, r), ColumnOf(m, c)), Expected(r, c), tolerance)
    {
      for column := 0 to 3
        invariant forall r: nat, c: nat :: r < row && c < 3 ==> Near(Dot(ColumnOf(m, r), ColumnOf(m, c)), Expected(r, c), tolerance)
        invariant forall c: nat :: c < column ==> Near(Dot(ColumnOf(m, row), ColumnOf(m, c)), Expected(row, c), tolerance)
      {
        var dot := 0.0;
        for index := 0 to 3
          invariant dot == PartialDot(m, row, column, index)
        {
          dot := dot + At(m, index, row) * At(m, index, column);
        }
        PartialDotIsDot(m, row, column);
        if !Near(dot, Expected(row, column), tolerance) {
          assert !ColumnsNear(m, tolerance);
          return Failure(NotOrthonormal);
        }
      }
    }
    assert ColumnsNear(m, tolerance);
    if !Near(Determinant(m), 1.0, tolerance) {
      return Failure(BadDeterminant);
    }
    r := Success(m);
  }

  /** The matrix stored row by row. */
  function FromRows(e: seq<real>): Matrix
    requires |e| == 16
  {
    Matrix(Vector(e[0], e[4], e[8]), Vector(e[1], e[5], e[9]), Vector(e[2], e[6], e[10]), Vector(e[3], e[7], e[11]),
           Bottom(e[12], e[13], e[14], e[15]))
  }

  /** Element 4 row + column is the entry of that row and column. */
  lemma FromRowsAt(e: seq<real>, row: nat, column: nat)
    requires |e| == 16 && row < 4 && column < 4
    ensures At(FromRows(e), row, column) == e[4 * row + column]
  {
    if row == 0 {
    } else if row == 1 {
    } else if row == 2 {
    } else {
      assert row == 3;
    }
  }

  /** RigidTransform::create; None stands for a double that is not finite. */
  method Create(elements: seq<Option<real>>, tolerance: Option<real>) returns (r: Result<Matrix, TransformError>)
    requires |elements| == 16
    ensures r == Failure(BadTolerance) <==> tolerance.None? || tolerance.value <= 0.0
    ensures r == Failure(NotFinite) <==> tolerance.Some? && tolerance.value > 0.0 && None in elements
    ensures r.Success? ==> tolerance.Some? && None !in elements
    ensures tolerance.Some? && tolerance.value > 0.0 && None !in elements ==>
      var m := FromRows(Map((e: Option<real>) => if e.Some? then e.value else 0.0, elements));
      && (r.Success? <==> Accepted(m, tolerance.value)) && (r.Success? ==> r.value == m)
      && (r == Failure(BadLastRow) <==> !LastNear(m, tolerance.value))
      && (r == Failure(NotOrthonormal) <==> LastNear(m, tolerance.value) && !ColumnsNear(m, tolerance.value))
  {
    if tolerance.None? || tolerance.value <= 0.0 {
      return Failure(BadTolerance);
    }
    for i := 0 to 16
      invariant None !in elements[..i]
    {
      if elements[i].None? {
        assert elements[i] in elements;
        return Failure(NotFinite);
      }
    }
    assert elements[..16] == elements;
    r := CheckMatrix(FromRows(Map((e: Option<real>) => if e.Some? then e.value else 0.0, elements)), tolerance.value);
  }

  /** A rigid pose passes at every positive tolerance; and only a rigid pose does. */
  lemma RigidIsAccepted(m: Matrix)
    ensures Rigid(m) <==> forall tolerance: real :: tolerance > 0.0 ==> Accepted(m, tolerance)
  {
    DotSymmetric(m.x, m.y);
    DotSymmetric(m.x, m.z);
    DotSymmetric(m.y, m.z);
    if forall tolerance: real :: tolerance > 0.0 ==> Accepted(m, tolerance) {
      forall row: nat, column: nat | row < 3 && column < 3
        ensures Dot(ColumnOf(m, row), ColumnOf(m, column)) == Expected(row, column)
      {
        AlwaysNear(m, Dot(ColumnOf(m, row), ColumnOf(m, column)), Expected(row, column), row, column);
      }
      assert Dot(ColumnOf(m, 0), ColumnOf(m, 0)) == 1.0 && Dot(ColumnOf(m, 1), ColumnOf(m, 1)) == 1.0
        && Dot(ColumnOf(m, 2), ColumnOf(m, 2)) == 1.0;
      assert Dot(ColumnOf(m, 0), ColumnOf(m, 1)) == 0.0 && Dot(ColumnOf(m, 0), ColumnOf(m, 2)) == 0.0
        && Dot(ColumnOf(m, 1), ColumnOf(m, 2)) == 0.0;
      LastAndDeterminant(m);
    }
  }

  lemma AcceptedIsIndependent(m: Matrix, tolerance: real)
    requires Accepted(m, tolerance) && tolerance < 1.0
    ensures Independent(m)
  {
    IndependentColumns(m);
  }

  /** A rotation is accepted exactly when the last row is near. */
  lemma RotationIsAccepted(m: Matrix, tolerance: real)
    requires Orthonormal(m) && Determinant(m) == 1.0 && tolerance > 0.0
    ensures Accepted(m, tolerance) <==> LastNear(m, tolerance)
  {
    DotSymmetric(m.x, m.y);
    DotSymmetric(m.x, m.z);
    DotSymmetric(m.y, m.z);
  }

  lemma ZeroColumnIsRejected(m: Matrix, tolerance: real)
    requires tolerance < 1.0 && (Dot(m.x, m.x) == 0.0 || Dot(m.y, m.y) == 0.0)
    ensures !Accepted(m, tolerance)
  {
    if Dot(m.x, m.x) == 0.0 {
      assert !Near(Dot(ColumnOf(m, 0), ColumnOf(m, 0)), Expected(0, 0), tolerance);
    } else {
      assert !Near(Dot(ColumnOf(m, 1), ColumnOf(m, 1)), Expected(1, 1), tolerance);
    }
  }

  function HalfGap(a: real, b: real): real {
    if a == b then 1.0 else if a < b then (b - a) / 2.0 else (a - b) / 2.0
  }

  lemma AlwaysNear(m: Matrix, a: real, b: real, row: nat, column: nat)
    requires forall tolerance: real :: tolerance > 0.0 ==> Accepted(m, tolerance)
    requires row < 3 && column < 3 && a == Dot(ColumnOf(m, row), ColumnOf(m, column)) && b == Expected(row, column)
    ensures a == b
  {
    assert Accepted(m, HalfGap(a, b));
    assert Near(Dot(ColumnOf(m, row), ColumnOf(m, column)), Expected(row, column), HalfGap(a, b));
  }

  lemma LastAndDeterminant(m: Matrix)
    requires forall tolerance: real :: tolerance > 0.0 ==> Accepted(m, tolerance)
    ensures m.last == LAST && Determinant(m) == 1.0
  {
    assert Accepted(m, HalfGap(m.last.x, 0.0)) && Accepted(m, HalfGap(m.last.y, 0.0)) && Accepted(m, HalfGap(m.last.z, 0.0));
    assert Accepted(m, HalfGap(m.last.w, 1.0)) && Accepted(m, HalfGap(Determinant(m), 1.0));
  }
}
