/**
  The scalar and the four-lane kernels of src/registration. Floating-point operations are uninterpreted
  functions, so equal results mean the same operations on the same operands in the same order.
 */
module Kernels {
  import opened Basics

  datatype Ops<!T> = Ops(
    zero: T, one: T,
    add: (T, T) -> T, sub: (T, T) -> T, mul: (T, T) -> T, div: (T, T) -> T,
    neg: T -> T, abs: T -> T, root: T -> T, atMost: (T, T) -> bool)

  datatype Point<+T> = Point(x: T, y: T, z: T)

  // ----- transforming points -----

  function Coordinate<T>(o: Ops<T>, m: seq<T>, row: nat, p: Point<T>): T
    requires |m| == 16 && row < 3
  {
    o.add(o.add(o.add(o.mul(m[4 * row], p.x), o.mul(m[4 * row + 1], p.y)), o.mul(m[4 * row + 2], p.z)), m[4 * row + 3])
  }

  function Transformed<T>(o: Ops<T>, m: seq<T>, p: Point<T>): Point<T>
    requires |m| == 16
  {
    Point(Coordinate(o, m, 0, p), Coordinate(o, m, 1, p), Coordinate(o, m, 2, p))
  }

  /** The transform of one point. */
  function Mover<T>(o: Ops<T>, m: seq<T>): Point<T> -> Point<T>
    requires |m| == 16
  {
    (p: Point<T>) => if |m| == 16 then Transformed(o, m, p) else p
  }

  /** The scalar loop on the subspans from `begin` on. Input and output may be the same array. */
  method EachPoint<T>(f: Point<T> -> Point<T>, input: array<Point<T>>, output: array<Point<T>>, begin: nat)
    requires begin <= input.Length == output.Length
    modifies output
    ensures forall k :: begin <= k < output.Length ==> output[k] == f(old(input[k]))
    ensures forall k :: 0 <= k < begin ==> output[k] == old(output[k])
  {
    for i := begin to input.Length
      invariant forall k :: begin <= k < i ==> output[k] == f(old(input[k]))
      invariant forall k :: i <= k < input.Length ==> input[k] == old(input[k])
      invariant forall k :: 0 <= k < begin ==> output[k] == old(output[k])
    {
      output[i] := f(input[i]);
    }
  }

  /** transform_scalar. */
  method TransformScalar<T>(o: Ops<T>, m: seq<T>, input: array<Point<T>>, output: array<Point<T>>)
    requires |m| == 16 && input.Length == output.Length
    modifies output
    ensures output[..] == Map(Mover(o, m), old(input[..]))
  {
    EachPoint(Mover(o, m), input, output, 0);
  }

  /** Four and two lanes of a vector register, lowest first. */
  datatype Four<+T> = Four(a: T, b: T, c: T, d: T)
  datatype Two<+T> = Two(a: T, b: T)

  function Broadcast4<T>(x: T): Four<T> {
    Four(x, x, x, x)
  }

  function Lanewise4<T>(f: (T, T) -> T, x: Four<T>, y: Four<T>): Four<T> {
    Four(f(x.a, y.a), f(x.b, y.b), f(x.c, y.c), f(x.d, y.d))
  }

  function Lanewise2<T>(f: (T, T) -> T, x: Two<T>, y: Two<T>): Two<T> {
    Two(f(x.a, y.a), f(x.b, y.b))
  }

  function Load4<T>(s: seq<T>, at: nat): Four<T>
    requires at + 4 <= |s|
  {
    Four(s[at], s[at + 1], s[at + 2], s[at + 3])
  }

  function Load2<T>(s: seq<T>, at: nat): Two<T>
    requires at + 2 <= |s|
  {
    Two(s[at], s[at + 1])
  }

  /** One output row for four points at once. */
  function RowOfFour<T>(o: Ops<T>, m: seq<T>, row: nat, x: Four<T>, y: Four<T>, z: Four<T>): Four<T>
    requires |m| == 16 && row < 3
  {
    var r := Lanewise4(o.add, Lanewise4(o.mul, Broadcast4(m[4 * row]), x), Lanewise4(o.mul, Broadcast4(m[4 * row + 1]), y));
    var s := Lanewise4(o.add, r, Lanewise4(o.mul, Broadcast4(m[4 * row + 2]), z));
    Lanewise4(o.add, s, Broadcast4(m[4 * row + 3]))
  }

  /** The vector body: gather by coordinate, compute three rows, scatter by lane. */
  function FourMover<T>(o: Ops<T>, m: seq<T>): Four<Point<T>> -> Four<Point<T>>
    requires |m| == 16
  {
    (p: Four<Point<T>>) =>
      if |m| != 16 then p
      else
        var x := Four(p.a.x, p.b.x, p.c.x, p.d.x);
        var y := Four(p.a.y, p.b.y, p.c.y, p.d.y);
        var z := Four(p.a.z, p.b.z, p.c.z, p.d.z);
        var r0, r1, r2 := RowOfFour(o, m, 0, x, y, z), RowOfFour(o, m, 1, x, y, z), RowOfFour(o, m, 2, x, y, z);
        Four(Point(r0.a, r1.a, r2.a), Point(r0.b, r1.b, r2.b), Point(r0.c, r1.c, r2.c), Point(r0.d, r1.d, r2.d))
  }

  /** A row of four lanes is the coordinate of each of four points. */
  lemma LanesArePoints<T>(o: Ops<T>, m: seq<T>, p: Four<Point<T>>, row: nat)
    requires |m| == 16 && row < 3
    ensures RowOfFour(o, m, row, Four(p.a.x, p.b.x, p.c.x, p.d.x), Four(p.a.y, p.b.y, p.c.y, p.d.y), Four(p.a.z, p.b.z, p.c.z, p.d.z))
      == Four(Coordinate(o, m, row, p.a), Coordinate(o, m, row, p.b), Coordinate(o, m, row, p.c), Coordinate(o, m, row, p.d))
  {
  }

  /** The vector body moves each of its four points as the scalar body does. */
  lemma FourIsScalar<T>(o: Ops<T>, m: seq<T>, p: Four<Point<T>>)
    requires |m| == 16
    ensures FourMover(o, m)(p) == Four(Mover(o, m)(p.a), Mover(o, m)(p.b), Mover(o, m)(p.c), Mover(o, m)(p.d))
  {
    LanesArePoints(o, m, p, 0);
    LanesArePoints(o, m, p, 1);
    LanesArePoints(o, m, p, 2);
  }

  method StoreFour<P>(output: array<P>, i: nat, q: Four<P>)
    requires i + 4 <= output.Length
    modifies output
    ensures output[i] == q.a && output[i + 1] == q.b && output[i + 2] == q.c && output[i + 3] == q.d
    ensures forall k :: 0 <= k < output.Length && !(i <= k < i + 4) ==> output[k] == old(output[k])
  {
    output[i], output[i + 1], output[i + 2], output[i + 3] := q.a, q.b, q.c, q.d;
  }

  /** Four points at a time, then the scalar loop on the tail. */
  method EachFour<T(!new)>(f: Point<T> -> Point<T>, four: Four<Point<T>> -> Four<Point<T>>, input: array<Point<T>>, output: array<Point<T>>)
    requires input.Length == output.Length
    requires forall p :: four(p) == Four(f(p.a), f(p.b), f(p.c), f(p.d))
    modifies output
    ensures forall k :: 0 <= k < output.Length ==> output[k] == f(old(input[k]))
  {
    var i := 0;
    while i + 4 <= input.Length
      invariant i <= input.Length
      invariant forall k :: 0 <= k < i ==> output[k] == f(old(input[k]))
      invariant forall k :: i <= k < input.Length ==> input[k] == old(input[k])
    {
      var q := four(Four(input[i], input[i + 1], input[i + 2], input[i + 3]));
      StoreFour(output, i, q);
      i := i + 4;
    }
    EachPoint(f, input, output, i);
  }

  /** transform_avx2 computes what the scalar kernel computes, for every length and tail, out of place and
      exactly in place. */
  method TransformAvx2<T(!new)>(o: Ops<T>, m: seq<T>, input: array<Point<T>>, output: array<Point<T>>)
    requires |m| == 16 && input.Length == output.Length
    modifies output
    ensures output[..] == Map(Mover(o, m), old(input[..]))
  {
    forall p
      ensures FourMover(o, m)(p) == Four(Mover(o, m)(p.a), Mover(o, m)(p.b), Mover(o, m)(p.c), Mover(o, m)(p.d))
    {
      FourIsScalar(o, m, p);
    }
    EachFour(Mover(o, m), FourMover(o, m), input, output);
  }

  // ----- the objective -----

  /** One correspondence; the information matrix is row-major. */
  datatype Input<+T> = Input(point: Point<T>, reference: Point<T>, normal: Point<T>, information: seq<T>,
                             delta: T, plane: bool, generalized: bool)

  function ErrorOf<T>(o: Ops<T>, v: Input<T>): Point<T> {
    Point(o.sub(v.point.x, v.reference.x), o.sub(v.point.y, v.reference.y), o.sub(v.point.z, v.reference.z))
  }

  function Products<T>(o: Ops<T>, l: Point<T>, r: Point<T>): Point<T> {
    Point(o.mul(l.x, r.x), o.mul(l.y, r.y), o.mul(l.z, r.z))
  }

  /** The plane offset, or the distance. */
  function Residual<T>(o: Ops<T>, v: Input<T>): T {
    var e := ErrorOf(o, v);
    var p := Products(o, e, if v.plane then v.normal else e);
    var sum := o.add(o.add(p.x, p.y), p.z);
    if v.plane then sum else o.root(sum)
  }

  /** The Huber weight. */
  function Weight<T>(o: Ops<T>, v: Input<T>): T {
    var r := o.abs(Residual(o, v));
    if o.atMost(r, v.delta) then o.one else o.div(v.delta, r)
  }

  function PlaneJacobian<T>(o: Ops<T>, p: Point<T>, n: Point<T>): (j: seq<T>)
    ensures |j| == 6
  {
    [o.sub(o.mul(p.y, n.z), o.mul(p.z, n.y)), o.sub(o.mul(p.z, n.x), o.mul(p.x, n.z)), o.sub(o.mul(p.x, n.y), o.mul(p.y, n.x)),
     n.x, n.y, n.z]
  }

  function PointJacobian<T>(o: Ops<T>, p: Point<T>): (j: seq<T>)
    ensures |j| == 18
  {
    [o.zero, p.z, o.neg(p.y), o.one, o.zero, o.zero,
     o.neg(p.z), o.zero, p.x, o.zero, o.one, o.zero,
     p.y, o.neg(p.x), o.zero, o.zero, o.zero, o.one]
  }

  function OuterRow<T>(o: Ops<T>, weight: T, j: seq<T>): (r: seq<T>)
    requires |j| == 6
    ensures |r| == 6
  {
    seq(6, c requires 0 <= c < 6 => o.mul(weight, j[c]))
  }

  function MatrixRow<T>(o: Ops<T>, w: Point<T>, j: seq<T>): (r: seq<T>)
    requires |j| == 18
    ensures |r| == 6
  {
    seq(6, c requires 0 <= c < 6 => o.add(o.add(o.mul(w.x, j[c]), o.mul(w.y, j[6 + c])), o.mul(w.z, j[12 + c])))
  }

  /** One entry of a weighted Jacobian row. */
  function WeightedAt<T>(o: Ops<T>, v: Input<T>, weight: T, j: seq<T>, row: nat, column: nat): T
    requires |j| == 18 && |v.information| == 9 && row < 6 && column < 3
  {
    if !v.generalized then o.mul(weight, j[6 * column + row])
    else o.add(o.add(o.mul(o.mul(weight, j[row]), v.information[column]),
                     o.mul(o.mul(weight, j[6 + row]), v.information[3 + column])),
               o.mul(o.mul(weight, j[12 + row]), v.information[6 + column]))
  }

  function Weighted<T>(o: Ops<T>, v: Input<T>, weight: T, j: seq<T>, row: nat): Point<T>
    requires |j| == 18 && |v.information| == 9 && row < 6
  {
    Point(WeightedAt(o, v, weight, j, row, 0), WeightedAt(o, v, weight, j, row, 1), WeightedAt(o, v, weight, j, row, 2))
  }

  /** A row of the normal-equation contribution. */
  function NormalRow<T>(o: Ops<T>, v: Input<T>, row: nat): (r: seq<T>)
    requires |v.information| == 9 && row < 6
    ensures |r| == 6
  {
    if v.plane then
      var j := PlaneJacobian(o, v.point, v.normal);
      OuterRow(o, o.mul(Weight(o, v), j[row]), j)
    else
      var j := PointJacobian(o, v.point);
      MatrixRow(o, Weighted(o, v, Weight(o, v), j, row), j)
  }

  function GradientAt<T>(o: Ops<T>, v: Input<T>, row: nat): T
    requires |v.information| == 9 && row < 6
  {
    if v.plane then
      o.mul(o.mul(Weight(o, v), o.neg(Residual(o, v))), PlaneJacobian(o, v.point, v.normal)[row])
    else
      var e, w := ErrorOf(o, v), Weighted(o, v, Weight(o, v), PointJacobian(o, v.point), row);
      o.neg(o.add(o.add(o.mul(w.x, e.x), o.mul(w.y, e.y)), o.mul(w.z, e.z)))
  }

  /** The first n rows, and the first n entries of the gradient. */
  function NormalRows<T>(o: Ops<T>, v: Input<T>, n: nat): (rows: seq<seq<T>>)
    requires |v.information| == 9 && n <= 6
    ensures |rows| == n && forall r :: 0 <= r < n ==> |rows[r]| == 6
  {
    if n == 0 then [] else NormalRows(o, v, n - 1) + [NormalRow(o, v, n - 1)]
  }

  function Gradient<T>(o: Ops<T>, v: Input<T>, n: nat): (g: seq<T>)
    requires |v.information| == 9 && n <= 6
    ensures |g| == n
  {
    if n == 0 then [] else Gradient(o, v, n - 1) + [GradientAt(o, v, n - 1)]
  }

  lemma {:induction false} RowsAt<T>(o: Ops<T>, v: Input<T>, n: nat, r: nat)
    requires |v.information| == 9 && r < n <= 6
    ensures NormalRows(o, v, n)[r] == NormalRow(o, v, r) && Gradient(o, v, n)[r] == GradientAt(o, v, r)
  {
    if r < n - 1 {
      RowsAt(o, v, n - 1, r);
    }
  }

  /** The entries [at, at + 6) are r, and nothing else has changed. */
  twostate predicate WroteRow<T>(a: array<T>, at: nat, r: seq<T>)
    reads a
  {
    && |r| == 6 && at + 6 <= a.Length
    && (forall c :: 0 <= c < 6 ==> a[at + c] == r[c])
    && (forall k :: 0 <= k < a.Length && !(at <= k < at + 6) ==> a[k] == old(a[k]))
  }

  method ScalarOuterRow<T>(o: Ops<T>, weight: T, j: seq<T>, result: array<T>, at: nat)
    requires |j| == 6 && at + 6 <= result.Length
    modifies result
    ensures WroteRow(result, at, OuterRow(o, weight, j))
  {
    for c := 0 to 6
      invariant forall k :: 0 <= k < c ==> result[at + k] == OuterRow(o, weight, j)[k]
      invariant forall k :: 0 <= k < result.Length && !(at <= k < at + c) ==> result[k] == old(result[k])
    {
      result[at + c] := o.mul(weight, j[c]);
    }
  }

  method ScalarMatrixRow<T>(o: Ops<T>, w: Point<T>, j: seq<T>, result: array<T>, at: nat)
    requires |j| == 18 && at + 6 <= result.Length
    modifies result
    ensures WroteRow(result, at, MatrixRow(o, w, j))
  {
    for c := 0 to 6
      invariant forall k :: 0 <= k < c ==> result[at + k] == MatrixRow(o, w, j)[k]
      invariant forall k :: 0 <= k < result.Length && !(at <= k < at + c) ==> result[k] == old(result[k])
    {
      result[at + c] := o.add(o.add(o.mul(w.x, j[c]), o.mul(w.y, j[6 + c])), o.mul(w.z, j[12 + c]));
    }
  }

  /** A four-lane and a two-lane store. */
  method StoreRow<T>(result: array<T>, at: nat, head: Four<T>, tail: Two<T>)
    requires at + 6 <= result.Length
    modifies result
    ensures WroteRow(result, at, [head.a, head.b, head.c, head.d, tail.a, tail.b])
  {
    result[at], result[at + 1], result[at + 2], result[at + 3] := head.a, head.b, head.c, head.d;
    result[at + 4], result[at + 5] := tail.a, tail.b;
  }

  method AvxOuterRow<T>(o: Ops<T>, weight: T, j: seq<T>, result: array<T>, at: nat)
    requires |j| == 6 && at + 6 <= result.Length
    modifies result
    ensures WroteRow(result, at, OuterRow(o, weight, j))
  {
    var head := Lanewise4(o.mul, Broadcast4(weight), Load4(j, 0));
    var tail := Lanewise2(o.mul, Two(weight, weight), Load2(j, 4));
    assert OuterRow(o, weight, j) == [head.a, head.b, head.c, head.d, tail.a, tail.b];
    StoreRow(result, at, head, tail);
  }

  method AvxMatrixRow<T>(o: Ops<T>, w: Point<T>, j: seq<T>, result: array<T>, at: nat)
    requires |j| == 18 && at + 6 <= result.Length
    modifies result
    ensures WroteRow(result, at, MatrixRow(o, w, j))
  {
    var first := Lanewise4(o.add, Lanewise4(o.mul, Broadcast4(w.x), Load4(j, 0)), Lanewise4(o.mul, Broadcast4(w.y), Load4(j, 6)));
    var head := Lanewise4(o.add, first, Lanewise4(o.mul, Broadcast4(w.z), Load4(j, 12)));
    var second := Lanewise2(o.add, Lanewise2(o.mul, Two(w.x, w.x), Load2(j, 4)), Lanewise2(o.mul, Two(w.y, w.y), Load2(j, 10)));
    var tail := Lanewise2(o.add, second, Lanewise2(o.mul, Two(w.z, w.z), Load2(j, 16)));
    assert MatrixRow(o, w, j) == [head.a, head.b, head.c, head.d, tail.a, tail.b];
    StoreRow(result, at, head, tail);
  }

  /** Three products; the four-lane version multiplies a zero lane too and drops it. */
  method AvxProducts<T>(o: Ops<T>, l: Point<T>, r: Point<T>) returns (p: Point<T>)
    ensures p == Products(o, l, r)
  {
    var values := Lanewise4(o.mul, Four(l.x, l.y, l.z, o.zero), Four(r.x, r.y, r.z, o.zero));
    p := Point(values.a, values.b, values.c);
  }

  /** The body of the row loop, in the plane branch or the general one. */
  method ObjectiveRow<T>(o: Ops<T>, avx: bool, v: Input<T>, weight: T, signed: T, row: nat, matrix: array<T>, gradient: array<T>,
                         ghost rows: seq<seq<T>>, ghost g: seq<T>)
    requires |v.information| == 9 && matrix.Length == 36 && gradient.Length == 6 && matrix != gradient && row < 6
    requires weight == Weight(o, v) && signed == Residual(o, v)
    requires rows == NormalRows(o, v, 6) && g == Gradient(o, v, 6)
    modifies matrix, gradient
    ensures WroteRow(matrix, 6 * row, rows[row])
    ensures gradient[..] == old(gradient[..])[row := g[row]]
  {
    RowsAt(o, v, 6, row);
    if v.plane {
      var j := PlaneJacobian(o, v.point, v.normal);
      if avx {
        AvxOuterRow(o, o.mul(weight, j[row]), j, matrix, 6 * row);
      } else {
        ScalarOuterRow(o, o.mul(weight, j[row]), j, matrix, 6 * row);
      }
      gradient[row] := o.mul(o.mul(weight, o.neg(signed)), j[row]);
    } else {
      var e, j := ErrorOf(o, v), PointJacobian(o, v.point);
      var w := Weighted(o, v, weight, j, row);
      if avx {
        AvxMatrixRow(o, w, j, matrix, 6 * row);
      } else {
        ScalarMatrixRow(o, w, j, matrix, 6 * row);
      }
      gradient[row] := o.neg(o.add(o.add(o.mul(w.x, e.x), o.mul(w.y, e.y)), o.mul(w.z, e.z)));
    }
  }

  /** The first n rows of a row-major 6 x 6 matrix. */
  ghost predicate HoldsRows<T>(matrix: seq<T>, rows: seq<seq<T>>, n: nat) {
    && |matrix| == 36 && n <= |rows| == 6 && (forall r :: 0 <= r < 6 ==> |rows[r]| == 6)
    && forall r: nat, c: nat {:trigger rows[r][c]} :: r < n && c < 6 ==> matrix[6 * r + c] == rows[r][c]
  }

  lemma RowsGrow<T>(before: seq<T>, after: seq<T>, rows: seq<seq<T>>, n: nat)
    requires n < 6 && HoldsRows(before, rows, n) && |after| == 36
    requires forall c :: 0 <= c < 6 ==> after[6 * n + c] == rows[n][c]
    requires forall k :: 0 <= k < 36 && !(6 * n <= k < 6 * n + 6) ==> after[k] == before[k]
    ensures HoldsRows(after, rows, n + 1)
  {
  }

  /** The products, the residual and the Huber weight. */
  method ResidualAndWeight<T>(o: Ops<T>, avx: bool, v: Input<T>) returns (residual: T, signed: T, weight: T)
    ensures signed == Residual(o, v) && residual == o.abs(signed) && weight == Weight(o, v)
  {
    var e := ErrorOf(o, v);
    var products := Products(o, e, if v.plane then v.normal else e);
    if avx {
      products := AvxProducts(o, e, if v.plane then v.normal else e);
    }
    var sum := o.add(o.add(products.x, products.y), products.z);
    signed := if v.plane then sum else o.root(sum);
    residual := o.abs(signed);
    weight := if o.atMost(residual, v.delta) then o.one else o.div(v.delta, residual);
  }

  /** The row loop; rows and g are what it has to produce. */
  method EachRow<T>(o: Ops<T>, avx: bool, v: Input<T>, weight: T, signed: T, matrix: array<T>, gradient: array<T>,
                    ghost rows: seq<seq<T>>, ghost g: seq<T>)
    requires |v.information| == 9 && matrix.Length == 36 && gradient.Length == 6 && matrix != gradient
    requires weight == Weight(o, v) && signed == Residual(o, v)
    requires rows == NormalRows(o, v, 6) && g == Gradient(o, v, 6)
    modifies matrix, gradient
    ensures HoldsRows(matrix[..], rows, 6) && gradient[..] == g
  {
    for row := 0 to 6
      invariant HoldsRows(matrix[..], rows, row)
      invariant gradient[..row] == g[..row]
    {
      ghost var before := matrix[..];
      ObjectiveRow(o, avx, v, weight, signed, row, matrix, gradient, rows, g);
      RowsGrow(before, matrix[..], rows, row);
      assert gradient[..row + 1] == g[..row + 1];
    }
  }

  /** The objective template, with either set of operations: it assigns the whole output, and the two sets
      assign the same. */
  method Objective<T>(o: Ops<T>, avx: bool, v: Input<T>, matrix: array<T>, gradient: array<T>) returns (residual: T)
    requires |v.information| == 9 && matrix.Length == 36 && gradient.Length == 6 && matrix != gradient
    modifies matrix, gradient
    ensures residual == o.abs(Residual(o, v))
    ensures HoldsRows(matrix[..], NormalRows(o, v, 6), 6)
    ensures gradient[..] == Gradient(o, v, 6)
  {
    var signed, weight;
    residual, signed, weight := ResidualAndWeight(o, avx, v);
    EachRow(o, avx, v, weight, signed, matrix, gradient, NormalRows(o, v, 6), Gradient(o, v, 6));
  }
}
