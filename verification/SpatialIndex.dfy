/**
  The flat preorder bounding-volume hierarchy of src/backends/cuda/spatial_index.hpp: built in place
  by recursive median splits, laid out with escape links, and walked without a stack.
 */
module SpatialIndex {
  import opened Basics

  const LEAF_CAPACITY: nat := 16

  datatype Vec3 = Vec3(x: real, y: real, z: real)

  datatype Node = Node(lower: Vec3, upper: Vec3, begin: nat, count: nat, escape: nat, minimum: int)

  function Coordinate(p: Vec3, axis: nat): real {
    if axis == 0 then p.x else if axis == 1 then p.y else p.z
  }

  predicate InRange(reference: seq<Vec3>, ids: seq<nat>) {
    forall i :: 0 <= i < |ids| ==> ids[i] < |reference|
  }

  /** The (coordinate, index) order given to nth_element. */
  predicate Less(reference: seq<Vec3>, axis: nat, a: nat, b: nat)
    requires a < |reference| && b < |reference|
  {
    var l, r := Coordinate(reference[a], axis), Coordinate(reference[b], axis);
    l < r || (l == r && a < b)
  }

  /** The widest axis of a box; the first one among equals. */
  function WidestAxis(lower: Vec3, upper: Vec3): (axis: nat)
    ensures axis < 3
    ensures forall a: nat :: a < 3 ==>
      Coordinate(upper, a) - Coordinate(lower, a) <= Coordinate(upper, axis) - Coordinate(lower, axis)
  {
    var axis := if upper.y - lower.y > upper.x - lower.x then 1 else 0;
    if upper.z - lower.z > Coordinate(upper, axis) - Coordinate(lower, axis) then 2 else axis
  }

  // ----- what a subtree is -----

  /** v is the exact extreme of the coordinate over the ids: a bound that is attained. */
  ghost predicate ExactLower(reference: seq<Vec3>, ids: seq<nat>, axis: nat, v: real)
    requires InRange(reference, ids)
  {
    && (forall i :: 0 <= i < |ids| ==> v <= Coordinate(reference[ids[i]], axis))
    && (exists i :: 0 <= i < |ids| && v == Coordinate(reference[ids[i]], axis))
  }

  ghost predicate ExactUpper(reference: seq<Vec3>, ids: seq<nat>, axis: nat, v: real)
    requires InRange(reference, ids)
  {
    && (forall i :: 0 <= i < |ids| ==> v >= Coordinate(reference[ids[i]], axis))
    && (exists i :: 0 <= i < |ids| && v == Coordinate(reference[ids[i]], axis))
  }

  ghost predicate ExactNode(reference: seq<Vec3>, ids: seq<nat>, node: Node)
    requires InRange(reference, ids)
  {
    && (forall axis: nat :: axis < 3 ==>
          && ExactLower(reference, ids, axis, Coordinate(node.lower, axis))
          && ExactUpper(reference, ids, axis, Coordinate(node.upper, axis)))
    && node.minimum in ids
    && (forall i :: 0 <= i < |ids| ==> node.minimum <= ids[i])
  }

  /** Everything before position m precedes everything from m on. */
  predicate SplitAt(reference: seq<Vec3>, axis: nat, ids: seq<nat>, m: nat)
    requires InRange(reference, ids)
  {
    forall i, j :: 0 <= i < m <= j < |ids| ==> !Less(reference, axis, ids[j], ids[i])
  }

  /** What a node says of the ids of its packed range. */
  ghost predicate NodeOk(reference: seq<Vec3>, ids: seq<nat>, node: Node) {
    && InRange(reference, ids)
    && ExactNode(reference, ids, node)
    && if node.count != 0 then Ascending(ids)
       else SplitAt(reference, WidestAxis(node.lower, node.upper), ids, |ids| / 2)
  }

  /** The nodes [first, next) are the preorder layout of a subtree over the packed positions
      [begin, end). */
  predicate Layout(nodes: seq<Node>, first: nat, next: nat, begin: nat, end: nat)
    decreases end - begin
  {
    && first < next <= |nodes| && begin < end
    && nodes[first].begin == begin && nodes[first].escape == next
    && if end - begin <= LEAF_CAPACITY then
         nodes[first].count == end - begin && next == first + 1
       else
         var middle := begin + (end - begin) / 2;
         && nodes[first].count == 0 && first + 1 < next
         && first + 1 < nodes[first + 1].escape < next
         && Layout(nodes, first + 1, nodes[first + 1].escape, begin, middle)
         && Layout(nodes, nodes[first + 1].escape, next, middle, end)
  }

  /** Where the packed range of node c ends: where the node its escape leads to begins. */
  function EndOf(nodes: seq<Node>, next: nat, end: nat, c: nat): nat
    requires c < |nodes| && next <= |nodes|
  {
    if nodes[c].escape < next then nodes[nodes[c].escape].begin else end
  }

  /** The ids packed under node c. */
  function RangeOf(order: seq<nat>, nodes: seq<Node>, next: nat, end: nat, c: nat): seq<nat>
    requires c < |nodes| && next <= |nodes|
  {
    var hi := EndOf(nodes, next, end, c);
    if nodes[c].begin <= hi <= |order| then order[nodes[c].begin..hi] else []
  }

  /** Layout, and every node in order with its range. */
  ghost predicate Built(ok: (seq<nat>, Node) -> bool, order: seq<nat>, nodes: seq<Node>,
                        first: nat, next: nat, begin: nat, end: nat) {
    && Layout(nodes, first, next, begin, end)
    && end <= |order|
    && forall c {:trigger RangeOf(order, nodes, next, end, c)} :: first <= c < next ==> ok(RangeOf(order, nodes, next, end, c), nodes[c])
  }

  ghost function Exact(reference: seq<Vec3>): (seq<nat>, Node) -> bool {
    (ids, node) => NodeOk(reference, ids, node)
  }

  /** An index over the reference: a permutation of its indices, the packed points, and the tree. */
  datatype Index = Index(points: seq<Vec3>, original: seq<nat>, nodes: seq<Node>)

  ghost predicate IsIndex(reference: seq<Vec3>, index: Index) {
    && |index.original| == |reference| == |index.points|
    && InRange(reference, index.original) && Distinct(index.original)
    && (forall i :: 0 <= i < |reference| ==> index.points[i] == reference[index.original[i]])
    && Built(Exact(reference), index.original, index.nodes, 0, |index.nodes|, 0, |reference|)
  }

  // ----- consequences of the layout -----

  /** The node storage reserved up front always suffices. */
  lemma {:induction false} NodeCount(nodes: seq<Node>, first: nat, next: nat, begin: nat, end: nat)
    requires Layout(nodes, first, next, begin, end)
    ensures next - first <= (end - begin) / 4 + 1
    ensures end - begin >= 8 ==> 4 * (next - first + 1) <= end - begin
    decreases end - begin
  {
    if end - begin > LEAF_CAPACITY {
      var middle, second := begin + (end - begin) / 2, nodes[first + 1].escape;
      NodeCount(nodes, first + 1, second, begin, middle);
      NodeCount(nodes, second, next, middle, end);
    }
  }

  /** Every node is the root of a subtree laid out between itself and its escape, so a cursor that
      moves on by one or by an escape visits or skips exactly whole subtrees. */
  lemma {:induction false} EveryNodeRootsSubtree(nodes: seq<Node>, first: nat, next: nat, begin: nat, end: nat, c: nat)
    requires Layout(nodes, first, next, begin, end) && first <= c < next
    ensures c < nodes[c].escape <= next
    ensures begin <= nodes[c].begin < EndOf(nodes, next, end, c) <= end
    ensures nodes[c].escape == next ==> EndOf(nodes, next, end, c) == end
    ensures Layout(nodes, c, nodes[c].escape, nodes[c].begin, EndOf(nodes, next, end, c))
    decreases end - begin
  {
    if c > first {
      var middle, second := begin + (end - begin) / 2, nodes[first + 1].escape;
      if c < second {
        EveryNodeRootsSubtree(nodes, first + 1, second, begin, middle, c);
      } else {
        EveryNodeRootsSubtree(nodes, second, next, middle, end, c);
      }
    }
  }

  /** The two children of an interior node are subtrees of their own. */
  lemma ChildrenBuilt(ok: (seq<nat>, Node) -> bool, order: seq<nat>, nodes: seq<Node>,
                      first: nat, next: nat, begin: nat, end: nat)
    requires Built(ok, order, nodes, first, next, begin, end) && end - begin > LEAF_CAPACITY
    ensures var middle, second := begin + (end - begin) / 2, nodes[first + 1].escape;
      && Built(ok, order, nodes, first + 1, second, begin, middle)
      && Built(ok, order, nodes, second, next, middle, end)
  {
    var middle, second := begin + (end - begin) / 2, nodes[first + 1].escape;
    forall c | first + 1 <= c < second
      ensures ok(RangeOf(order, nodes, second, middle, c), nodes[c])
    {
      EveryNodeRootsSubtree(nodes, first + 1, second, begin, middle, c);
      assert Layout(nodes, second, next, middle, end);
      assert RangeOf(order, nodes, second, middle, c) == RangeOf(order, nodes, next, end, c);
    }
    forall c | second <= c < next
      ensures ok(RangeOf(order, nodes, next, end, c), nodes[c])
    {
    }
  }

  /** Two built children and an exact root make a built subtree. */
  lemma ParentBuilt(ok: (seq<nat>, Node) -> bool, order: seq<nat>, nodes: seq<Node>,
                    first: nat, next: nat, begin: nat, end: nat)
    requires Layout(nodes, first, next, begin, end) && end - begin > LEAF_CAPACITY && end <= |order|
    requires ok(order[begin..end], nodes[first])
    requires var middle, second := begin + (end - begin) / 2, nodes[first + 1].escape;
      && Built(ok, order, nodes, first + 1, second, begin, middle)
      && Built(ok, order, nodes, second, next, middle, end)
    ensures Built(ok, order, nodes, first, next, begin, end)
  {
    var middle, second := begin + (end - begin) / 2, nodes[first + 1].escape;
    forall c | first <= c < next
      ensures ok(RangeOf(order, nodes, next, end, c), nodes[c])
    {
      if first < c < second {
        EveryNodeRootsSubtree(nodes, first + 1, second, begin, middle, c);
        assert Layout(nodes, second, next, middle, end);
        assert RangeOf(order, nodes, second, middle, c) == RangeOf(order, nodes, next, end, c);
      }
    }
  }

  lemma {:induction false} LayoutFrame(nodes: seq<Node>, other: seq<Node>, first: nat, next: nat, begin: nat, end: nat)
    requires Layout(nodes, first, next, begin, end) && next <= |other|
    requires forall c :: first <= c < next ==> other[c] == nodes[c]
    ensures Layout(other, first, next, begin, end)
    decreases end - begin
  {
    if end - begin > LEAF_CAPACITY {
      var middle, second := begin + (end - begin) / 2, nodes[first + 1].escape;
      LayoutFrame(nodes, other, first + 1, second, begin, middle);
      LayoutFrame(nodes, other, second, next, middle, end);
    }
  }

  lemma RangeFrame(order: seq<nat>, nodes: seq<Node>, order': seq<nat>, nodes': seq<Node>,
                   first: nat, next: nat, begin: nat, end: nat, c: nat)
    requires Layout(nodes, first, next, begin, end) && first <= c < next
    requires next <= |nodes'| && end <= |order| && end <= |order'|
    requires forall c :: first <= c < next ==> nodes'[c] == nodes[c]
    requires order'[begin..end] == order[begin..end]
    ensures RangeOf(order', nodes', next, end, c) == RangeOf(order, nodes, next, end, c)
  {
    EveryNodeRootsSubtree(nodes, first, next, begin, end, c);
    var lo, hi := nodes[c].begin, EndOf(nodes, next, end, c);
    assert EndOf(nodes', next, end, c) == hi;
    SliceOfSlice(order, begin, end, lo, hi);
    SliceOfSlice(order', begin, end, lo, hi);
  }

  /** A subtree depends on its own nodes and its own packed range only. */
  lemma BuiltFrame(ok: (seq<nat>, Node) -> bool, order: seq<nat>, nodes: seq<Node>, order': seq<nat>, nodes': seq<Node>,
                   first: nat, next: nat, begin: nat, end: nat)
    requires Built(ok, order, nodes, first, next, begin, end)
    requires next <= |nodes'| && end <= |order'|
    requires forall c :: first <= c < next ==> nodes'[c] == nodes[c]
    requires order'[begin..end] == order[begin..end]
    ensures Built(ok, order', nodes', first, next, begin, end)
  {
    LayoutFrame(nodes, nodes', first, next, begin, end);
    forall c | first <= c < next
      ensures ok(RangeOf(order', nodes', next, end, c), nodes'[c])
    {
      RangeFrame(order, nodes, order', nodes', first, next, begin, end, c);
      assert ok(RangeOf(order, nodes, next, end, c), nodes[c]);
    }
  }
}
