/**
  The stackless branch-and-bound walk of src/backends/cuda/cuda_correspondence.cu over the packed
  hierarchy. Distances are computed under an arbitrary monotone rounding, so the result holds for
  double-precision arithmetic as well as for exact arithmetic.
 */
module SpatialIndexWalk {
  import opened Basics
  import opened Nearest
  import opened SpatialIndex
  import opened SpatialIndexUnique

  /** The rounded operations of the distance computation. */
  datatype Arithmetic = Arithmetic(minus: (real, real) -> real, square: real -> real, plus: (real, real) -> real)

  ghost predicate MonotoneMinus(minus: (real, real) -> real) {
    forall a, b, c, d :: Abs(a - b) <= Abs(c - d) ==> Abs(minus(a, b)) <= Abs(minus(c, d))
  }

  ghost predicate MonotoneSquare(square: real -> real) {
    forall x, y :: Abs(x) <= Abs(y) ==> square(x) <= square(y)
  }

  ghost predicate MonotonePlus(plus: (real, real) -> real) {
    forall a, b, c, d :: a <= c && b <= d ==> plus(a, b) <= plus(c, d)
  }

  /** What the walk needs of them: a larger exact magnitude never gives a smaller rounded one. */
  ghost predicate Monotone(m: Arithmetic) {
    MonotoneMinus(m.minus) && MonotoneSquare(m.square) && MonotonePlus(m.plus)
  }

  lemma SquareMonotone(a: real, b: real)
    requires Abs(a) <= Abs(b)
    ensures a * a <= b * b
  {
    var x, y := Abs(a), Abs(b);
    assert x * x <= y * y;
  }

  /** A rounding that is monotone and treats both signs alike. */
  ghost predicate Rounding(round: real -> real) {
    && (forall x, y :: x <= y ==> round(x) <= round(y))
    && (forall x, y :: x + y == 0.0 ==> round(x) + round(y) == 0.0)
  }

  ghost predicate RoundsMinus(minus: (real, real) -> real, round: real -> real) {
    forall a, b :: minus(a, b) == round(a - b)
  }

  ghost predicate RoundsSquare(square: real -> real, round: real -> real) {
    forall x :: square(x) == round(x * x)
  }

  ghost predicate RoundsPlus(plus: (real, real) -> real, round: real -> real) {
    forall a, b :: plus(a, b) == round(a + b)
  }

  lemma RoundedMagnitude(round: real -> real, x: real, y: real)
    requires Rounding(round) && Abs(x) <= Abs(y)
    ensures Abs(round(x)) <= Abs(round(y))
  {
    assert round(0.0) + round(0.0) == 0.0;
    assert round(x) + round(-x) == 0.0 && round(y) + round(-y) == 0.0;
  }

  lemma RoundedMinus(minus: (real, real) -> real, round: real -> real)
    requires Rounding(round) && RoundsMinus(minus, round)
    ensures MonotoneMinus(minus)
  {
    forall a, b, c, d | Abs(a - b) <= Abs(c - d)
      ensures Abs(minus(a, b)) <= Abs(minus(c, d))
    {
      RoundedMagnitude(round, a - b, c - d);
    }
  }

  lemma RoundedSquare(square: real -> real, round: real -> real)
    requires Rounding(round) && RoundsSquare(square, round)
    ensures MonotoneSquare(square)
  {
    forall x, y | Abs(x) <= Abs(y)
      ensures square(x) <= square(y)
    {
      SquareMonotone(x, y);
    }
  }

  lemma RoundedPlus(plus: (real, real) -> real, round: real -> real)
    requires Rounding(round) && RoundsPlus(plus, round)
    ensures MonotonePlus(plus)
  {
  }

  /** Exact operations followed by one such rounding each qualify: round-to-nearest, and none at all. */
  lemma RoundedIsMonotone(m: Arithmetic, round: real -> real)
    requires Rounding(round) && RoundsMinus(m.minus, round) && RoundsSquare(m.square, round) && RoundsPlus(m.plus, round)
    ensures Monotone(m)
  {
    RoundedMinus(m.minus, round);
    RoundedSquare(m.square, round);
    RoundedPlus(m.plus, round);
  }

  function SquaredLength(m: Arithmetic, dx: real, dy: real, dz: real): real {
    m.plus(m.plus(m.square(dx), m.square(dy)), m.square(dz))
  }

  function PointDistance(m: Arithmetic, query: Vec3, p: Vec3): real {
    SquaredLength(m, m.minus(query.x, p.x), m.minus(query.y, p.y), m.minus(query.z, p.z))
  }

  ghost predicate NeverRounds(round: real -> real) {
    forall x :: round(x) == x
  }

  /** Without rounding it is the squared distance. */
  lemma ExactDistance(m: Arithmetic, round: real -> real, query: Vec3, p: Vec3)
    requires NeverRounds(round) && RoundsMinus(m.minus, round) && RoundsSquare(m.square, round) && RoundsPlus(m.plus, round)
    ensures var x, y, z := query.x - p.x, query.y - p.y, query.z - p.z; PointDistance(m, query, p) == Dot3(x, y, z, x, y, z)
  {
    var x, y, z := m.minus(query.x, p.x), m.minus(query.y, p.y), m.minus(query.z, p.z);
    assert x == round(query.x - p.x) && y == round(query.y - p.y) && z == round(query.z - p.z);
    assert m.square(x) == round(x * x) && m.square(y) == round(y * y) && m.square(z) == round(z * z);
    assert m.plus(m.square(x), m.square(y)) == round(m.square(x) + m.square(y));
    assert m.plus(m.plus(m.square(x), m.square(y)), m.square(z)) == round(m.plus(m.square(x), m.square(y)) + m.square(z));
  }

  /** How far a coordinate is outside an interval. */
  function Gap(m: Arithmetic, q: real, lower: real, upper: real): real {
    if q < lower then m.minus(lower, q) else if q > upper then m.minus(q, upper) else 0.0
  }

  function BoxDistance(m: Arithmetic, query: Vec3, node: Node): real {
    SquaredLength(m,
                  Gap(m, query.x, node.lower.x, node.upper.x),
                  Gap(m, query.y, node.lower.y, node.upper.y),
                  Gap(m, query.z, node.lower.z, node.upper.z))
  }

  /** The squared distance of every reference point from the query. */
  function Distances(m: Arithmetic, reference: seq<Vec3>, query: Vec3): nat -> real {
    (c: nat) => if c < |reference| then PointDistance(m, query, reference[c]) else 0.0
  }

  /** A gap is no larger than the distance to any point of the interval. */
  lemma GapBound(m: Arithmetic, q: real, lower: real, upper: real, x: real)
    requires Monotone(m) && lower <= x <= upper
    ensures Abs(Gap(m, q, lower, upper)) <= Abs(m.minus(q, x))
  {
    if q < lower {
      assert Abs(lower - q) <= Abs(q - x);
    } else if q > upper {
      assert Abs(q - upper) <= Abs(q - x);
    }
  }

  predicate InBox(node: Node, p: Vec3) {
    node.lower.x <= p.x <= node.upper.x && node.lower.y <= p.y <= node.upper.y && node.lower.z <= p.z <= node.upper.z
  }

  lemma ExactBox(reference: seq<Vec3>, ids: seq<nat>, node: Node, i: nat)
    requires InRange(reference, ids) && ExactNode(reference, ids, node) && i < |ids|
    ensures InBox(node, reference[ids[i]]) && node.minimum <= ids[i]
  {
    assert ExactLower(reference, ids, 0, Coordinate(node.lower, 0)) && ExactUpper(reference, ids, 0, Coordinate(node.upper, 0));
    assert ExactLower(reference, ids, 1, Coordinate(node.lower, 1)) && ExactUpper(reference, ids, 1, Coordinate(node.upper, 1));
    assert ExactLower(reference, ids, 2, Coordinate(node.lower, 2)) && ExactUpper(reference, ids, 2, Coordinate(node.upper, 2));
  }

  /** The box distance is a lower bound for every point in the box, rounding included. */
  lemma BoxBound(m: Arithmetic, query: Vec3, node: Node, p: Vec3)
    requires Monotone(m) && InBox(node, p)
    ensures BoxDistance(m, query, node) <= PointDistance(m, query, p)
  {
    GapBound(m, query.x, node.lower.x, node.upper.x, p.x);
    GapBound(m, query.y, node.lower.y, node.upper.y, p.y);
    GapBound(m, query.z, node.lower.z, node.upper.z, p.z);
  }

  /** best and result are the nearest of the ids packed before position p. */
  ghost predicate Found(dist: nat -> real, limit: real, order: seq<nat>, p: nat, best: real, result: int)
    requires p <= |order|
  {
    && IsNearest(dist, limit, Elements(order[..p]), result)
    && best == (if result < 0 then limit else dist(result))
  }

  /** Where the packed range of node c starts; past the last node, the end of everything. */
  function StartOf(index: Index, c: nat): nat {
    if c < |index.nodes| then index.nodes[c].begin else |index.points|
  }

  /** A subtree may be skipped when neither its box nor its smallest id can improve the answer. */
  predicate Prunes(lowerDistance: real, minimum: int, best: real, result: int) {
    lowerDistance > best || (lowerDistance == best && result >= 0 && minimum >= result)
  }

  lemma PrunedSubtree(m: Arithmetic, reference: seq<Vec3>, query: Vec3, limit: real, order: seq<nat>, node: Node,
                      p: nat, e: nat, best: real, result: int)
    requires Monotone(m) && p <= e <= |order| && NodeOk(reference, order[p..e], node)
    requires Found(Distances(m, reference, query), limit, order, p, best, result)
    requires Prunes(BoxDistance(m, query, node), node.minimum, best, result)
    ensures Found(Distances(m, reference, query), limit, order, e, best, result)
  {
    var dist, ids := Distances(m, reference, query), order[p..e];
    forall i | 0 <= i < |ids|
      ensures dist(ids[i]) >= BoxDistance(m, query, node) && ids[i] >= node.minimum
    {
      ExactBox(reference, ids, node, i);
      BoxBound(m, query, node, reference[ids[i]]);
    }
    assert order[..e] == order[..p] + ids;
    assert Elements(order[..e]) == Elements(order[..p]) + Elements(ids);
  }

  /** What the layout says about the node at the cursor. */
  lemma AtCursor(reference: seq<Vec3>, index: Index, c: nat)
    requires IsIndex(reference, index) && c < |index.nodes|
    ensures var node, n := index.nodes[c], |index.nodes|;
      && c < node.escape <= n && StartOf(index, c) <= StartOf(index, node.escape) <= |reference|
      && NodeOk(reference, index.original[StartOf(index, c)..StartOf(index, node.escape)], node)
      && (node.count == 0 ==> c + 1 < n && StartOf(index, c + 1) == StartOf(index, c))
      && (node.count != 0 ==> node.begin + node.count == StartOf(index, node.escape))
  {
    var nodes, n := index.nodes, |index.nodes|;
    EveryNodeRootsSubtree(nodes, 0, n, 0, |reference|, c);
    var e := EndOf(nodes, n, |reference|, c);
    assert Layout(nodes, c, nodes[c].escape, nodes[c].begin, e);
    assert RangeOf(index.original, nodes, n, |reference|, c) == index.original[nodes[c].begin..e];
  }

  lemma FoundNext(dist: nat -> real, limit: real, order: seq<nat>, i: nat, best: real, result: int)
    requires i < |order| && Found(dist, limit, order, i, best, result)
    ensures var d := dist(order[i]);
      if d < best || (d == best && (result < 0 || order[i] < result)) then Found(dist, limit, order, i + 1, d, order[i])
      else Found(dist, limit, order, i + 1, best, result)
  {
    assert order[..i + 1] == order[..i] + [order[i]];
    assert Elements(order[..i + 1]) == Elements(order[..i]) + {order[i]};
  }

  /** The leaf loop of the kernel, over the packed points. */
  method ScanLeaf(m: Arithmetic, ghost reference: seq<Vec3>, index: Index, query: Vec3, ghost limit: real,
                  begin: nat, end: nat, best: real, result: int)
    returns (best': real, result': int)
    requires IsIndex(reference, index) && begin <= end <= |index.original|
    requires Found(Distances(m, reference, query), limit, index.original, begin, best, result)
    ensures Found(Distances(m, reference, query), limit, index.original, end, best', result')
  {
    best', result' := best, result;
    for i := begin to end
      invariant Found(Distances(m, reference, query), limit, index.original, i, best', result')
    {
      var d, original := PointDistance(m, query, index.points[i]), index.original[i];
      assert Distances(m, reference, query)(original) == d;
      FoundNext(Distances(m, reference, query), limit, index.original, i, best', result');
      if d < best' || (d == best' && (result' < 0 || original < result')) {
        best', result' := d, original;
      }
    }
  }

  /** The indexed kernel for one query: the answer is the exhaustive oracle's, whatever was pruned. */
  method IndexedNearest(m: Arithmetic, ghost reference: seq<Vec3>, index: Index, query: Vec3, limit: real)
    returns (result: int)
    requires Monotone(m) && IsIndex(reference, index)
    ensures result == Oracle(Distances(m, reference, query), limit, |reference|).1
  {
    ghost var dist := Distances(m, reference, query);
    var best, cursor := limit, 0;
    result := -1;
    assert Layout(index.nodes, 0, |index.nodes|, 0, |reference|);
    while cursor < |index.nodes|
      invariant cursor <= |index.nodes| && StartOf(index, cursor) <= |index.original|
      invariant Found(dist, limit, index.original, StartOf(index, cursor), best, result)
      decreases |index.nodes| - cursor
    {
      var node := index.nodes[cursor];
      AtCursor(reference, index, cursor);
      if Prunes(BoxDistance(m, query, node), node.minimum, best, result) {
        PrunedSubtree(m, reference, query, limit, index.original, node,
                      StartOf(index, cursor), StartOf(index, node.escape), best, result);
        cursor := node.escape;
      } else if node.count == 0 {
        cursor := cursor + 1;
      } else {
        best, result := ScanLeaf(m, reference, index, query, limit, node.begin, node.begin + node.count, best, result);
        cursor := node.escape;
      }
    }
    PermutationElements(index.original, |reference|);
    assert index.original[..|reference|] == index.original && Elements(index.original) == Ids(|reference|);
    NearestIsOracle(dist, limit, |reference|, result);
  }
}
