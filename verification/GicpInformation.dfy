/**
  The information of a GICP pair, over exact reals: the inverse of the reference covariance plus the turned
  scan covariance, where a covariance is V diag(epsilon, 1, 1) V^T for the eigenvectors V.
 */
module GicpInformation {
  import opened Basics
  import opened Kernels
  import opened Objective

  function Dot(u: Point<real>, v: Point<real>): real {
    Dot3(u.x, u.y, u.z, v.x, v.y, v.z)
  }

  function RowOf(m: seq<real>, i: nat): Point<real>
    requires |m| == 9 && i < 3
  {
    Point(m[3 * i], m[3 * i + 1], m[3 * i + 2])
  }

  /** m v. */
  function Image(m: seq<real>, v: Point<real>): Point<real>
    requires |m| == 9
  {
    Point(Dot(RowOf(m, 0), v), Dot(RowOf(m, 1), v), Dot(RowOf(m, 2), v))
  }

  /** Each undoes the other. */
  ghost predicate IsInverse(omega: seq<real>, m: seq<real>) {
    |omega| == |m| == 9 && forall u: Point<real> {:trigger Image(omega, u)} :: Image(m, Image(omega, u)) == u && Image(omega, Image(m, u)) == u
  }

  lemma FormIsDot(m: seq<real>, u: Point<real>, v: Point<real>)
    requires |m| == 9
    ensures Form(m, u, v) == Dot(u, Image(m, v)) == Dot(Image(m, v), u)
  {
  }

  /** In a symmetric matrix's inverse the form moves to the inverse images. */
  lemma InverseForm(omega: seq<real>, m: seq<real>, u: Point<real>, v: Point<real>)
    requires IsInverse(omega, m)
    ensures Form(omega, u, v) == Form(m, Image(omega, v), Image(omega, u))
  {
    FormIsDot(omega, u, v);
    FormIsDot(m, Image(omega, v), Image(omega, u));
    assert Image(m, Image(omega, u)) == u;
  }

  lemma UnitForms(m: seq<real>)
    requires |m| == 9
    ensures var x, y, z := Point(1.0, 0.0, 0.0), Point(0.0, 1.0, 0.0), Point(0.0, 0.0, 1.0);
      && Form(m, x, y) == m[1] && Form(m, y, x) == m[3] && Form(m, x, z) == m[2]
      && Form(m, z, x) == m[6] && Form(m, y, z) == m[5] && Form(m, z, y) == m[7]
  {
  }

  /** The inverse of a symmetric positive semidefinite matrix is symmetric and positive semidefinite. */
  lemma InverseIsSemidefinite(omega: seq<real>, m: seq<real>)
    requires IsInverse(omega, m) && Symmetric(m) && PositiveSemidefinite(m)
    ensures Symmetric(omega) && PositiveSemidefinite(omega)
  {
    forall u: Point<real>
      ensures Form(omega, u, u) >= 0.0
    {
      InverseForm(omega, m, u, u);
    }
    InverseFormsAgree(omega, m, Point(1.0, 0.0, 0.0), Point(0.0, 1.0, 0.0));
    InverseFormsAgree(omega, m, Point(1.0, 0.0, 0.0), Point(0.0, 0.0, 1.0));
    InverseFormsAgree(omega, m, Point(0.0, 1.0, 0.0), Point(0.0, 0.0, 1.0));
    UnitForms(omega);
  }

  lemma InverseFormsAgree(omega: seq<real>, m: seq<real>, u: Point<real>, v: Point<real>)
    requires IsInverse(omega, m) && Symmetric(m)
    ensures Form(omega, u, v) == Form(omega, v, u)
  {
    InverseForm(omega, m, u, v);
    InverseForm(omega, m, v, u);
    FormSymmetric(m, Image(omega, u), Image(omega, v));
  }

  // ----- the inverted matrix -----

  function Added(a: seq<real>, b: seq<real>): (c: seq<real>)
    requires |a| == |b| == 9
    ensures |c| == 9
  {
    [a[0] + b[0], a[1] + b[1], a[2] + b[2], a[3] + b[3], a[4] + b[4], a[5] + b[5], a[6] + b[6], a[7] + b[7], a[8] + b[8]]
  }

  /** r m r^T. */
  function Turned(r: seq<real>, m: seq<real>): (t: seq<real>)
    requires |r| == |m| == 9
    ensures |t| == 9
  {
    var x, y, z := RowOf(r, 0), RowOf(r, 1), RowOf(r, 2);
    [Form(m, x, x), Form(m, x, y), Form(m, x, z), Form(m, y, x), Form(m, y, y), Form(m, y, z), Form(m, z, x), Form(m, z, y), Form(m, z, z)]
  }

  /** r^T u, the rows of r weighted by u. */
  function Combined(r: seq<real>, u: Point<real>): Point<real>
    requires |r| == 9
  {
    Plus(Plus(Plus(Point(0.0, 0.0, 0.0), RowOf(r, 0), u.x), RowOf(r, 1), u.y), RowOf(r, 2), u.z)
  }

  lemma AddedReals(a0: real, a1: real, a2: real, b0: real, b1: real, b2: real, x: real, y: real, z: real)
    ensures (a0 + b0) * x + (a1 + b1) * y + (a2 + b2) * z == (a0 * x + a1 * y + a2 * z) + (b0 * x + b1 * y + b2 * z)
  {
  }

  lemma DotAdds(u: Point<real>, a: Point<real>, b: Point<real>, c: Point<real>)
    requires c == Point(a.x + b.x, a.y + b.y, a.z + b.z)
    ensures Dot(u, c) == Dot(u, a) + Dot(u, b) && Dot(c, u) == Dot(a, u) + Dot(b, u)
  {
    AddedReals(a.x, a.y, a.z, b.x, b.y, b.z, u.x, u.y, u.z);
  }

  lemma AddedForm(a: seq<real>, b: seq<real>, u: Point<real>)
    requires |a| == |b| == 9
    ensures Form(Added(a, b), u, u) == Form(a, u, u) + Form(b, u, u)
  {
    var c := Added(a, b);
    DotAdds(u, RowOf(a, 0), RowOf(b, 0), RowOf(c, 0));
    DotAdds(u, RowOf(a, 1), RowOf(b, 1), RowOf(c, 1));
    DotAdds(u, RowOf(a, 2), RowOf(b, 2), RowOf(c, 2));
    DotAdds(u, Image(a, u), Image(b, u), Image(c, u));
    FormIsDot(a, u, u);
    FormIsDot(b, u, u);
    FormIsDot(c, u, u);
  }

  /** One side of the form of a turned matrix. */
  lemma CombinedForm(r: seq<real>, m: seq<real>, v: Point<real>, u: Point<real>)
    requires |r| == |m| == 9
    ensures Form(m, v, Combined(r, u)) ==
      Times(u.x, Form(m, v, RowOf(r, 0))) + Times(u.y, Form(m, v, RowOf(r, 1))) + Times(u.z, Form(m, v, RowOf(r, 2)))
    ensures Form(m, Combined(r, u), v) ==
      Times(u.x, Form(m, RowOf(r, 0), v)) + Times(u.y, Form(m, RowOf(r, 1), v)) + Times(u.z, Form(m, RowOf(r, 2), v))
  {
    var zero := Point(0.0, 0.0, 0.0);
    var one := Plus(zero, RowOf(r, 0), u.x);
    var two := Plus(one, RowOf(r, 1), u.y);
    FormZero(m, v);
    FormPlus(m, v, zero, RowOf(r, 0), u.x);
    FormPlus(m, v, one, RowOf(r, 1), u.y);
    FormPlus(m, v, two, RowOf(r, 2), u.z);
  }

  lemma TimesForm(a: real, b: real, c: real, d: real, e: real, f: real, g: real, h: real, i: real, x: real, y: real, z: real)
    ensures Form9(a, b, c, d, e, f, g, h, i, x, y, z, x, y, z) ==
      Times(x, Times(x, a) + Times(y, b) + Times(z, c)) + Times(y, Times(x, d) + Times(y, e) + Times(z, f))
      + Times(z, Times(x, g) + Times(y, h) + Times(z, i))
  {
  }

  lemma CombinedMeans(r: seq<real>, u: Point<real>)
    requires |r| == 9
    ensures Combined(r, u) == Point(Dot3(r[0], r[3], r[6], u.x, u.y, u.z), Dot3(r[1], r[4], r[7], u.x, u.y, u.z),
                                    Dot3(r[2], r[5], r[8], u.x, u.y, u.z))
  {
    CombinedReals(r[0], r[3], r[6], u.x, u.y, u.z);
    CombinedReals(r[1], r[4], r[7], u.x, u.y, u.z);
    CombinedReals(r[2], r[5], r[8], u.x, u.y, u.z);
  }

  lemma CombinedReals(a: real, b: real, c: real, x: real, y: real, z: real)
    ensures 0.0 + Times(x, a) + Times(y, b) + Times(z, c) == Dot3(a, b, c, x, y, z)
  {
  }

  /** A covariance turned by r weighs u as the covariance weighs r^T u. */
  lemma TurnedMeans(r: seq<real>, m: seq<real>, u: Point<real>)
    requires |r| == |m| == 9
    ensures var v := Point(Dot3(r[0], r[3], r[6], u.x, u.y, u.z), Dot3(r[1], r[4], r[7], u.x, u.y, u.z), Dot3(r[2], r[5], r[8], u.x, u.y, u.z));
      Form(Turned(r, m), u, u) == Form(m, v, v)
  {
    CombinedMeans(r, u);
    TurnedForm(r, m, u);
  }

  lemma TurnedForm(r: seq<real>, m: seq<real>, u: Point<real>)
    requires |r| == |m| == 9
    ensures Form(Turned(r, m), u, u) == Form(m, Combined(r, u), Combined(r, u))
  {
    var t := Turned(r, m);
    CombinedForm(r, m, Combined(r, u), u);
    CombinedForm(r, m, RowOf(r, 0), u);
    CombinedForm(r, m, RowOf(r, 1), u);
    CombinedForm(r, m, RowOf(r, 2), u);
    TimesForm(t[0], t[1], t[2], t[3], t[4], t[5], t[6], t[7], t[8], u.x, u.y, u.z);
  }

  lemma SumIsSemidefinite(a: seq<real>, r: seq<real>, b: seq<real>)
    requires |a| == |r| == |b| == 9 && Symmetric(a) && Symmetric(b) && PositiveSemidefinite(a) && PositiveSemidefinite(b)
    ensures Symmetric(Added(a, Turned(r, b))) && PositiveSemidefinite(Added(a, Turned(r, b)))
  {
    forall u: Point<real>
      ensures Form(Added(a, Turned(r, b)), u, u) >= 0.0
    {
      AddedForm(a, Turned(r, b), u);
      TurnedForm(r, b, u);
    }
    FormSymmetric(b, RowOf(r, 0), RowOf(r, 1));
    FormSymmetric(b, RowOf(r, 0), RowOf(r, 2));
    FormSymmetric(b, RowOf(r, 1), RowOf(r, 2));
  }

  // ----- covariances -----

  function Outer(a: Point<real>, s: real): (m: seq<real>)
    ensures |m| == 9
  {
    [Times(s, a.x * a.x), Times(s, a.x * a.y), Times(s, a.x * a.z), Times(s, a.y * a.x), Times(s, a.y * a.y), Times(s, a.y * a.z),
     Times(s, a.z * a.x), Times(s, a.z * a.y), Times(s, a.z * a.z)]
  }

  /** V diag(epsilon, 1, 1) V^T for the columns a, b, c of V. */
  function Regularized(epsilon: real, a: Point<real>, b: Point<real>, c: Point<real>): (m: seq<real>)
    ensures |m| == 9
  {
    Added(Added(Outer(a, epsilon), Outer(b, 1.0)), Outer(c, 1.0))
  }

  lemma OuterFormReals(s: real, a: real, b: real, c: real, x: real, y: real, z: real)
    ensures Form9(Times(s, a * a), Times(s, a * b), Times(s, a * c), Times(s, b * a), Times(s, b * b), Times(s, b * c),
                  Times(s, c * a), Times(s, c * b), Times(s, c * c), x, y, z, x, y, z)
      == Times(s, Times(Dot3(a, b, c, x, y, z), Dot3(a, b, c, x, y, z)))
  {
  }

  lemma OuterFormIs(a: Point<real>, s: real, u: Point<real>)
    ensures Form(Outer(a, s), u, u) == Times(s, Times(Dot(a, u), Dot(a, u)))
  {
    OuterFormReals(s, a.x, a.y, a.z, u.x, u.y, u.z);
  }

  lemma OuterForm(a: Point<real>, s: real, u: Point<real>)
    requires s >= 0.0
    ensures Form(Outer(a, s), u, u) >= 0.0
  {
    OuterFormIs(a, s, u);
    SquareScaled(s, Dot(a, u));
  }

  lemma SquareScaled(s: real, d: real)
    requires s >= 0.0
    ensures Times(s, Times(d, d)) >= 0.0
  {
    SquareOf(d);
    NotNegative(s, Times(d, d));
  }

  lemma NotNegative(s: real, x: real)
    requires s >= 0.0 && x >= 0.0
    ensures Times(s, x) >= 0.0
  {
  }

  /** Whatever the eigenvectors, a regularized covariance is symmetric and positive semidefinite. */
  lemma RegularizedIsSemidefinite(epsilon: real, a: Point<real>, b: Point<real>, c: Point<real>)
    requires epsilon >= 0.0
    ensures Symmetric(Regularized(epsilon, a, b, c)) && PositiveSemidefinite(Regularized(epsilon, a, b, c))
  {
    var two := Added(Outer(a, epsilon), Outer(b, 1.0));
    forall u: Point<real>
      ensures Form(Regularized(epsilon, a, b, c), u, u) >= 0.0
    {
      AddedForm(two, Outer(c, 1.0), u);
      AddedForm(Outer(a, epsilon), Outer(b, 1.0), u);
      OuterForm(a, epsilon, u);
      OuterForm(b, 1.0, u);
      OuterForm(c, 1.0, u);
    }
  }

  /** V is orthogonal: along its columns every vector has its length. */
  ghost predicate KeepsLengths(a: Point<real>, b: Point<real>, c: Point<real>) {
    forall u: Point<real> {:trigger Dot(u, u)} ::
      Times(Dot(a, u), Dot(a, u)) + Times(Dot(b, u), Dot(b, u)) + Times(Dot(c, u), Dot(c, u)) == Dot(u, u)
  }

  /** A covariance with orthonormal eigenvectors. */
  ghost predicate IsRegularized(epsilon: real, m: seq<real>) {
    exists a: Point<real>, b: Point<real>, c: Point<real> :: KeepsLengths(a, b, c) && m == Regularized(epsilon, a, b, c)
  }

  // ----- the inverse exists -----

  ghost predicate PositiveDefinite(m: seq<real>)
    requires |m| == 9
  {
    forall u: Point<real> :: u != Point(0.0, 0.0, 0.0) ==> Form(m, u, u) > 0.0
  }

  function Cross(u: Point<real>, v: Point<real>): Point<real> {
    Point(Minor(u.y, v.z, u.z, v.y), Minor(u.z, v.x, u.x, v.z), Minor(u.x, v.y, u.y, v.x))
  }

  lemma DetTurns(a: real, b: real, c: real, d: real, e: real, f: real, g: real, h: real, i: real)
    ensures Det(a, b, c, d, e, f, g, h, i) == Det(d, e, f, g, h, i, a, b, c) == Det(g, h, i, a, b, c, d, e, f)
    ensures Det(a, b, c, a, b, c, d, e, f) == 0.0 && Det(d, e, f, a, b, c, d, e, f) == 0.0
  {
  }

  lemma DotCross(u: Point<real>, v: Point<real>, w: Point<real>)
    ensures Dot(u, Cross(v, w)) == Det(u.x, u.y, u.z, v.x, v.y, v.z, w.x, w.y, w.z)
  {
  }

  lemma CrossDots(u: Point<real>, v: Point<real>, w: Point<real>)
    ensures Dot(u, Cross(u, v)) == 0.0 && Dot(v, Cross(u, v)) == 0.0
    ensures Dot(u, Cross(v, w)) == Dot(v, Cross(w, u)) == Dot(w, Cross(u, v))
  {
    DetTurns(u.x, u.y, u.z, v.x, v.y, v.z, w.x, w.y, w.z);
    DotCross(u, u, v);
    DotCross(v, u, v);
    DotCross(u, v, w);
    DotCross(v, w, u);
    DotCross(w, u, v);
  }

  function Determinant(m: seq<real>): real
    requires |m| == 9
  {
    Dot(RowOf(m, 0), Cross(RowOf(m, 1), RowOf(m, 2)))
  }

  function Stretched(a: Point<real>, s: real): Point<real> {
    Point(Times(a.x, s), Times(a.y, s), Times(a.z, s))
  }

  lemma DotStretched(p: Point<real>, a: Point<real>, s: real)
    ensures Dot(p, Stretched(a, s)) == Times(Dot(p, a), s)
  {
  }

  lemma DotPlus(p: Point<real>, a: Point<real>, b: Point<real>, s: real)
    ensures Dot(p, Plus(a, b, s)) == Dot(p, a) + Times(s, Dot(p, b))
  {
  }

  function FromColumns(a: Point<real>, b: Point<real>, c: Point<real>): (m: seq<real>)
    ensures |m| == 9
  {
    [a.x, b.x, c.x, a.y, b.y, c.y, a.z, b.z, c.z]
  }

  lemma ColumnReals(a: real, b: real, c: real, x: real, y: real, z: real)
    ensures Dot(Point(a, b, c), Point(x, y, z)) == 0.0 + Times(x, a) + Times(y, b) + Times(z, c)
  {
  }

  lemma ColumnsImage(p: Point<real>, a: Point<real>, b: Point<real>, c: Point<real>, u: Point<real>)
    ensures Dot(p, Image(FromColumns(a, b, c), u)) == Times(u.x, Dot(p, a)) + Times(u.y, Dot(p, b)) + Times(u.z, Dot(p, c))
  {
    var zero := Point(0.0, 0.0, 0.0);
    ColumnReals(a.x, b.x, c.x, u.x, u.y, u.z);
    ColumnReals(a.y, b.y, c.y, u.x, u.y, u.z);
    ColumnReals(a.z, b.z, c.z, u.x, u.y, u.z);
    assert Image(FromColumns(a, b, c), u) == Plus(Plus(Plus(zero, a, u.x), b, u.y), c, u.z);
    DotPlus(p, zero, a, u.x);
    DotPlus(p, Plus(zero, a, u.x), b, u.y);
    DotPlus(p, Plus(Plus(zero, a, u.x), b, u.y), c, u.z);
  }

  /** The cross products of the rows, divided by the determinant, side by side. */
  function Inverted(m: seq<real>, s: real): (n: seq<real>)
    requires |m| == 9
    ensures |n| == 9
  {
    var p, q, r := RowOf(m, 0), RowOf(m, 1), RowOf(m, 2);
    FromColumns(Stretched(Cross(q, r), s), Stretched(Cross(r, p), s), Stretched(Cross(p, q), s))
  }

  lemma UnitTimes(x: real, s: real)
    ensures Times(x, 1.0) == x && Times(x, 0.0) == 0.0 && Times(0.0, s) == 0.0
  {
  }

  lemma InvertedRow(p: Point<real>, q: Point<real>, r: Point<real>, s: real, u: Point<real>)
    requires Times(Dot(p, Cross(q, r)), s) == 1.0
    ensures var n := FromColumns(Stretched(Cross(q, r), s), Stretched(Cross(r, p), s), Stretched(Cross(p, q), s));
      Dot(p, Image(n, u)) == u.x && Dot(q, Image(n, u)) == u.y && Dot(r, Image(n, u)) == u.z
  {
    var a, b, c := Stretched(Cross(q, r), s), Stretched(Cross(r, p), s), Stretched(Cross(p, q), s);
    CrossDots(p, q, r);
    CrossDots(q, r, p);
    CrossDots(r, p, q);
    UnitTimes(u.x, s);
    UnitTimes(u.y, s);
    UnitTimes(u.z, s);
    OneRow(p, q, r, p, s, a, b, c, u);
    OneRow(p, q, r, q, s, a, b, c, u);
    OneRow(p, q, r, r, s, a, b, c, u);
  }

  lemma OneRow(p: Point<real>, q: Point<real>, r: Point<real>, row: Point<real>, s: real,
               a: Point<real>, b: Point<real>, c: Point<real>, u: Point<real>)
    requires a == Stretched(Cross(q, r), s) && b == Stretched(Cross(r, p), s) && c == Stretched(Cross(p, q), s)
    ensures Dot(row, Image(FromColumns(a, b, c), u)) == Times(u.x, Times(Dot(row, Cross(q, r)), s))
      + Times(u.y, Times(Dot(row, Cross(r, p)), s)) + Times(u.z, Times(Dot(row, Cross(p, q)), s))
  {
    ColumnsImage(row, a, b, c, u);
    DotStretched(row, Cross(q, r), s);
    DotStretched(row, Cross(r, p), s);
    DotStretched(row, Cross(p, q), s);
  }

  lemma InvertedIsRight(m: seq<real>, s: real, u: Point<real>)
    requires |m| == 9 && Times(Determinant(m), s) == 1.0
    ensures Image(m, Image(Inverted(m, s), u)) == u
  {
    InvertedRow(RowOf(m, 0), RowOf(m, 1), RowOf(m, 2), s, u);
  }

  // ----- positive definite matrices -----

  lemma FirstMinor(a: real, b: real, c: real, e: real, f: real, i: real)
    ensures Form9(a, b, c, b, e, f, c, f, i, 1.0, 0.0, 0.0, 1.0, 0.0, 0.0) == a
    ensures Form9(a, b, c, b, e, f, c, f, i, -b, a, 0.0, -b, a, 0.0) == Times(a, a * e - b * b)
  {
  }

  lemma SecondMinor(a: real, b: real, c: real, e: real, f: real, i: real, x: real, y: real, z: real, det: real)
    requires x == b * f - c * e && y == c * b - a * f && z == a * e - b * b
    requires det == a * (e * i - f * f) + b * (f * c - b * i) + c * (b * f - e * c)
    ensures Form9(a, b, c, b, e, f, c, f, i, x, y, z, x, y, z) == Times(det, z)
  {
    assert a * x + b * y + c * z == 0.0;
    assert b * x + e * y + f * z == 0.0;
    assert c * x + f * y + i * z == det;
    assert Form9(a, b, c, b, e, f, c, f, i, x, y, z, x, y, z)
      == x * (a * x + b * y + c * z) + y * (b * x + e * y + f * z) + z * (c * x + f * y + i * z);
  }

  lemma PositiveFactor(x: real, y: real)
    requires x > 0.0 && (Times(x, y) > 0.0 || Times(y, x) > 0.0)
    ensures y > 0.0
  {
  }

  /** A symmetric positive definite matrix has a positive determinant. */
  lemma DefiniteDeterminant(m: seq<real>)
    requires |m| == 9 && Symmetric(m) && PositiveDefinite(m)
    ensures Determinant(m) > 0.0
  {
    var a, b, c, e, f, i := m[0], m[1], m[2], m[4], m[5], m[8];
    var x, y, z := b * f - c * e, c * b - a * f, a * e - b * b;
    FirstMinor(a, b, c, e, f, i);
    assert Form(m, Point(1.0, 0.0, 0.0), Point(1.0, 0.0, 0.0)) > 0.0;
    assert Form(m, Point(-b, a, 0.0), Point(-b, a, 0.0)) > 0.0;
    PositiveFactor(a, z);
    SecondMinor(a, b, c, e, f, i, x, y, z, Determinant(m));
    assert Form(m, Point(x, y, z), Point(x, y, z)) > 0.0;
    PositiveFactor(z, Determinant(m));
  }

  lemma ImageDifference(m: seq<real>, u: Point<real>, v: Point<real>, d: Point<real>)
    requires |m| == 9 && Image(m, u) == Image(m, v) && d == Plus(u, v, -1.0)
    ensures Form(m, d, d) == 0.0
  {
    DotPlus(RowOf(m, 0), u, v, -1.0);
    DotPlus(RowOf(m, 1), u, v, -1.0);
    DotPlus(RowOf(m, 2), u, v, -1.0);
    assert Image(m, d) == Point(0.0, 0.0, 0.0);
    FormIsDot(m, d, d);
  }

  /** A positive definite matrix takes no two vectors to one. */
  lemma DefiniteIsInjective(m: seq<real>, u: Point<real>, v: Point<real>)
    requires |m| == 9 && PositiveDefinite(m) && Image(m, u) == Image(m, v)
    ensures u == v
  {
    var d := Plus(u, v, -1.0);
    ImageDifference(m, u, v, d);
    assert d == Point(0.0, 0.0, 0.0);
  }

  lemma DefiniteIsInvertible(m: seq<real>) returns (omega: seq<real>)
    requires |m| == 9 && Symmetric(m) && PositiveDefinite(m)
    ensures IsInverse(omega, m)
  {
    DefiniteDeterminant(m);
    var s := 1.0 / Determinant(m);
    Reciprocal(Determinant(m), s);
    omega := Inverted(m, s);
    forall u: Point<real>
      ensures Image(m, Image(omega, u)) == u && Image(omega, Image(m, u)) == u
    {
      InvertedIsRight(m, s, u);
      InvertedIsRight(m, s, Image(m, u));
      DefiniteIsInjective(m, Image(omega, Image(m, u)), u);
    }
  }

  lemma Reciprocal(d: real, s: real)
    requires d > 0.0 && s == 1.0 / d
    ensures Times(d, s) == 1.0
  {
  }

  lemma WeightedPositive(epsilon: real, x: real, y: real, z: real, total: real)
    requires epsilon > 0.0 && x >= 0.0 && y >= 0.0 && z >= 0.0 && x + y + z == total > 0.0
    ensures Times(epsilon, x) + Times(1.0, y) + Times(1.0, z) > 0.0
  {
    if x > 0.0 {
      assert epsilon * x > 0.0;
    }
  }

  lemma LengthPositive(u: Point<real>)
    requires u != Point(0.0, 0.0, 0.0)
    ensures Dot(u, u) > 0.0
  {
    SquareOf(u.x);
    SquareOf(u.y);
    SquareOf(u.z);
    if u.x != 0.0 {
      NonzeroSquare(u.x);
    } else if u.y != 0.0 {
      NonzeroSquare(u.y);
    } else {
      NonzeroSquare(u.z);
    }
    SquaresAre(u);
  }

  lemma SquaresAre(u: Point<real>)
    ensures Dot(u, u) == Times(u.x, u.x) + Times(u.y, u.y) + Times(u.z, u.z)
  {
  }

  lemma NonzeroSquare(x: real)
    requires x != 0.0
    ensures Times(x, x) > 0.0
  {
    SquareOf(x);
    if Times(x, x) == 0.0 {
      ZeroProduct(x, if x > 0.0 then x else -x);
    }
  }

  lemma SquareOf(x: real)
    ensures Times(x, x) >= 0.0
  {
  }

  lemma RegularizedIsDefinite(epsilon: real, a: Point<real>, b: Point<real>, c: Point<real>)
    requires epsilon > 0.0 && KeepsLengths(a, b, c)
    ensures PositiveDefinite(Regularized(epsilon, a, b, c))
  {
    var two := Added(Outer(a, epsilon), Outer(b, 1.0));
    forall u: Point<real> | u != Point(0.0, 0.0, 0.0)
      ensures Form(Regularized(epsilon, a, b, c), u, u) > 0.0
    {
      AddedForm(two, Outer(c, 1.0), u);
      AddedForm(Outer(a, epsilon), Outer(b, 1.0), u);
      OuterFormIs(a, epsilon, u);
      OuterFormIs(b, 1.0, u);
      OuterFormIs(c, 1.0, u);
      SquareOf(Dot(a, u));
      SquareOf(Dot(b, u));
      SquareOf(Dot(c, u));
      LengthPositive(u);
      WeightedPositive(epsilon, Times(Dot(a, u), Dot(a, u)), Times(Dot(b, u), Dot(b, u)), Times(Dot(c, u), Dot(c, u)), Dot(u, u));
    }
  }

  /** The inverse that GICP takes exists, for orthonormal eigenvectors and a positive epsilon. */
  lemma GicpInverseExists(epsilon: real, reference: seq<real>, rotation: seq<real>, scan: seq<real>) returns (omega: seq<real>)
    requires epsilon > 0.0 && IsRegularized(epsilon, reference) && IsRegularized(epsilon, scan) && |rotation| == 9
    ensures |reference| == |scan| == 9 && IsInverse(omega, Added(reference, Turned(rotation, scan)))
  {
    var a, b, c :| KeepsLengths(a, b, c) && reference == Regularized(epsilon, a, b, c);
    RegularizedIsDefinite(epsilon, a, b, c);
    RegularizedIsSemidefinite(epsilon, a, b, c);
    var d, e, f :| KeepsLengths(d, e, f) && scan == Regularized(epsilon, d, e, f);
    RegularizedIsSemidefinite(epsilon, d, e, f);
    SumIsSemidefinite(reference, rotation, scan);
    SumIsDefinite(reference, rotation, scan);
    omega := DefiniteIsInvertible(Added(reference, Turned(rotation, scan)));
  }

  lemma SumIsDefinite(a: seq<real>, r: seq<real>, b: seq<real>)
    requires |a| == |r| == |b| == 9 && PositiveDefinite(a) && PositiveSemidefinite(b)
    ensures PositiveDefinite(Added(a, Turned(r, b)))
  {
    forall u: Point<real> | u != Point(0.0, 0.0, 0.0)
      ensures Form(Added(a, Turned(r, b)), u, u) > 0.0
    {
      AddedForm(a, Turned(r, b), u);
      TurnedForm(r, b, u);
    }
  }

  /** A matrix has at most one inverse. */
  lemma InverseIsUnique(omega: seq<real>, other: seq<real>, m: seq<real>)
    requires IsInverse(omega, m) && IsInverse(other, m)
    ensures omega == other
  {
    SameImage(omega, other, m, Point(1.0, 0.0, 0.0));
    SameImage(omega, other, m, Point(0.0, 1.0, 0.0));
    SameImage(omega, other, m, Point(0.0, 0.0, 1.0));
    UnitImages(omega);
    UnitImages(other);
  }

  lemma SameImage(omega: seq<real>, other: seq<real>, m: seq<real>, u: Point<real>)
    requires IsInverse(omega, m) && IsInverse(other, m)
    ensures Image(omega, u) == Image(other, u)
  {
    var w := Image(other, u);
    assert Image(m, Image(omega, w)) == w && Image(omega, Image(m, w)) == w;
    assert Image(m, w) == u;
  }

  lemma UnitImages(m: seq<real>)
    requires |m| == 9
    ensures Image(m, Point(1.0, 0.0, 0.0)) == Point(m[0], m[3], m[6])
    ensures Image(m, Point(0.0, 1.0, 0.0)) == Point(m[1], m[4], m[7])
    ensures Image(m, Point(0.0, 0.0, 1.0)) == Point(m[2], m[5], m[8])
  {
  }

  /** The inverse, where there is one. */
  ghost function InverseOf(m: seq<real>): (omega: seq<real>)
    ensures |omega| == 9
    ensures forall n :: IsInverse(n, m) ==> omega == n
  {
    if exists n :: IsInverse(n, m) then
      var n :| IsInverse(n, m);
      assert forall p :: IsInverse(p, m) ==> n == p by { forall p | IsInverse(p, m) ensures n == p { InverseIsUnique(n, p, m); } }
      n
    else seq(9, _ => 0.0)
  }

  /** The information of a GICP pair always qualifies. */
  lemma GicpSensible(v: Input<real>, epsilon: real, reference: seq<real>, rotation: seq<real>, scan: seq<real>)
    requires epsilon > 0.0 && IsRegularized(epsilon, reference) && IsRegularized(epsilon, scan) && |rotation| == 9
    requires v.generalized && !v.plane && v.delta > 0.0
    requires |reference| == |scan| == 9 && IsInverse(v.information, Added(reference, Turned(rotation, scan)))
    ensures Sensible(v)
  {
    var a, b, c :| KeepsLengths(a, b, c) && reference == Regularized(epsilon, a, b, c);
    RegularizedIsSemidefinite(epsilon, a, b, c);
    var d, e, f :| KeepsLengths(d, e, f) && scan == Regularized(epsilon, d, e, f);
    RegularizedIsSemidefinite(epsilon, d, e, f);
    SumIsSemidefinite(reference, rotation, scan);
    InverseIsSemidefinite(v.information, Added(reference, Turned(rotation, scan)));
  }
}
