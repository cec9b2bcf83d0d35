/**
  The in-place recursive construction of the hierarchy. The library's nth_element and sort appear
  only through their contracts, so the result holds for every implementation of them.
 */
module SpatialIndexBuild {
  import opened Basics
  import opened SpatialIndex

  // ----- permutations -----

  predicate StrictOrder(less: (nat, nat) -> bool, bound: nat) {
    && (forall x: nat :: x < bound ==> !less(x, x))
    && (forall x: nat, y: nat, z: nat :: x < bound && y < bound && z < bound && less(x, y) && less(y, z) ==> less(x, z))
  }

  /** The (coordinate, index) comparator as a total function. */
  function Comparator(reference: seq<Vec3>, axis: nat): (nat, nat) -> bool {
    (a: nat, b: nat) => a < |reference| && b < |reference| && Less(reference, axis, a, b)
  }

  lemma SamePermutationElements(s: seq<nat>, t: seq<nat>)
    requires multiset(s) == multiset(t)
    ensures Elements(s) == Elements(t) && |s| == |t|
  {
    assert |s| == |multiset(s)| == |multiset(t)| == |t|;
    forall x
      ensures x in s <==> x in t
    {
      assert x in s <==> x in multiset(s);
      assert x in t <==> x in multiset(t);
    }
  }

  lemma InRangePermuted(reference: seq<Vec3>, s: seq<nat>, t: seq<nat>)
    requires Elements(s) == Elements(t) && InRange(reference, s)
    ensures InRange(reference, t)
  {
    forall i | 0 <= i < |t|
      ensures t[i] < |reference|
    {
      assert t[i] in Elements(s);
    }
  }

  /** Exactness does not depend on the order of the ids. */
  lemma ExactNodePermuted(reference: seq<Vec3>, s: seq<nat>, t: seq<nat>, node: Node)
    requires InRange(reference, s) && InRange(reference, t) && Elements(s) == Elements(t) && ExactNode(reference, s, node)
    ensures ExactNode(reference, t, node)
  {
    forall axis: nat | axis < 3
      ensures ExactLower(reference, t, axis, Coordinate(node.lower, axis))
      ensures ExactUpper(reference, t, axis, Coordinate(node.upper, axis))
    {
      var l, u := Coordinate(node.lower, axis), Coordinate(node.upper, axis);
      assert ExactLower(reference, s, axis, l) && ExactUpper(reference, s, axis, u);
      var i :| 0 <= i < |s| && l == Coordinate(reference[s[i]], axis);
      var j :| 0 <= j < |s| && u == Coordinate(reference[s[j]], axis);
      assert s[i] in Elements(t) && s[j] in Elements(t);
      forall k | 0 <= k < |t|
        ensures l <= Coordinate(reference[t[k]], axis) <= u
      {
        assert t[k] in Elements(s);
      }
    }
    forall k | 0 <= k < |t|
      ensures node.minimum <= t[k]
    {
      assert t[k] in Elements(s);
    }
    var i :| 0 <= i < |s| && s[i] == node.minimum;
    assert s[i] in Elements(t);
  }

  /** Reordering each side keeps a split. */
  lemma SplitPermuted(reference: seq<Vec3>, axis: nat, s: seq<nat>, t: seq<nat>, m: nat)
    requires InRange(reference, s) && InRange(reference, t) && m <= |s| == |t|
    requires Elements(s[..m]) == Elements(t[..m]) && Elements(s[m..]) == Elements(t[m..])
    requires SplitAt(reference, axis, s, m)
    ensures SplitAt(reference, axis, t, m)
  {
    forall i, j | 0 <= i < m <= j < |t|
      ensures !Less(reference, axis, t[j], t[i])
    {
      assert t[..m][i] in Elements(s[..m]) && t[m..][j - m] in Elements(s[m..]);
      var p :| 0 <= p < m && s[..m][p] == t[i];
      var q :| 0 <= q < |s| - m && s[m..][q] == t[j];
      assert !Less(reference, axis, s[m + q], s[p]);
    }
  }

  // ----- library algorithms, by contract -----

  /** A position of the smallest element of a[k..end). */
  method SmallestFrom(a: array<nat>, k: nat, end: nat, less: (nat, nat) -> bool, ghost bound: nat) returns (m: nat)
    requires k < end <= a.Length && StrictOrder(less, bound) && Bounded(a[..], k, end, bound)
    ensures k <= m < end && forall i :: k <= i < end ==> !less(a[i], a[m])
  {
    m := k;
    for j := k + 1 to end
      invariant k <= m < end
      invariant forall i :: k <= i < j ==> !less(a[i], a[m])
    {
      if less(a[j], a[m]) {
        m := j;
      }
    }
  }

  function Swapped(s: seq<nat>, i: nat, j: nat): (z: seq<nat>)
    requires i < |s| && j < |s|
  {
    s[i := s[j]][j := s[i]]
  }

  lemma SwapKeepsMultiset(s: seq<nat>, i: nat, j: nat)
    requires i < |s| && j < |s|
    ensures multiset(Swapped(s, i, j)) == multiset(s)
  {
  }

  /** A swap inside [begin, end) permutes that range and leaves what is around it alone. */
  lemma SwapWithin(s: seq<nat>, begin: nat, end: nat, k: nat, m: nat)
    requires begin <= k <= m < end <= |s|
    ensures multiset(Swapped(s, k, m)[begin..end]) == multiset(s[begin..end])
    ensures Swapped(s, k, m)[..k] == s[..k] && Swapped(s, k, m)[end..] == s[end..]
  {
    SwapKeepsMultiset(s[begin..end], k - begin, m - begin);
    assert Swapped(s, k, m)[begin..end] == Swapped(s[begin..end], k - begin, m - begin);
  }

  method Swap(a: array<nat>, begin: nat, end: nat, k: nat, m: nat)
    requires begin <= k <= m < end <= a.Length
    modifies a
    ensures multiset(a[begin..end]) == old(multiset(a[begin..end]))
    ensures a[..k] == old(a[..k]) && a[end..] == old(a[end..])
    ensures a[..] == Swapped(old(a[..]), k, m)
  {
    ghost var s := a[..];
    SwapWithin(s, begin, end, k, m);
    assert s[begin..end] == a[begin..end] && s[..k] == a[..k] && s[end..] == a[end..];
    a[k], a[m] := a[m], a[k];
    ghost var z := a[..];
    assert z == Swapped(s, k, m);
    assert z[begin..end] == a[begin..end] && z[..k] == a[..k] && z[end..] == a[end..];
  }

  ghost predicate Bounded(s: seq<nat>, begin: nat, end: nat, bound: nat)
    requires begin <= end <= |s|
  {
    forall i :: begin <= i < end ==> s[i] < bound
  }

  /** The positions [begin, k) hold the smallest elements of [begin, end), in order. */
  ghost predicate SmallestFirst(s: seq<nat>, begin: nat, k: nat, end: nat, less: (nat, nat) -> bool)
    requires begin <= k <= end <= |s|
  {
    forall i, j :: begin <= i < k && i < j < end ==> !less(s[j], s[i])
  }

  lemma SelectionGrows(s: seq<nat>, begin: nat, k: nat, end: nat, m: nat, less: (nat, nat) -> bool, bound: nat)
    requires begin <= k <= m < end <= |s| && StrictOrder(less, bound)
    requires Bounded(s, begin, end, bound) && SmallestFirst(s, begin, k, end, less)
    requires forall i :: k <= i < end ==> !less(s[i], s[m])
    ensures Bounded(Swapped(s, k, m), begin, end, bound)
    ensures SmallestFirst(Swapped(s, k, m), begin, k + 1, end, less)
  {
  }

  /** Puts the smallest elements of [begin, end) first, in order, up to position stop. */
  method SelectSmallest(a: array<nat>, begin: nat, stop: nat, end: nat, less: (nat, nat) -> bool, ghost bound: nat)
    requires begin <= stop <= end <= a.Length && StrictOrder(less, bound)
    requires Bounded(a[..], begin, end, bound)
    modifies a
    ensures multiset(a[begin..end]) == old(multiset(a[begin..end]))
    ensures a[..begin] == old(a[..begin]) && a[end..] == old(a[end..])
    ensures SmallestFirst(a[..], begin, stop, end, less)
  {
    for k := begin to stop
      invariant multiset(a[begin..end]) == old(multiset(a[begin..end]))
      invariant a[..begin] == old(a[..begin]) && a[end..] == old(a[end..])
      invariant Bounded(a[..], begin, end, bound) && SmallestFirst(a[..], begin, k, end, less)
    {
      var m := SmallestFrom(a, k, end, less, bound);
      ghost var before := a[..];
      SelectionGrows(before, begin, k, end, m, less, bound);
      Swap(a, begin, end, k, m);
      assert a[..begin] == a[..k][..begin] == before[..k][..begin] == before[..begin];
    }
  }

  /** std::nth_element at `middle`, specified as the C++ standard does: only that nothing from
      `middle` on precedes anything before it. */
  method NthElement(reference: seq<Vec3>, a: array<nat>, begin: nat, middle: nat, end: nat, axis: nat)
    requires begin <= middle < end <= a.Length && InRange(reference, a[begin..end])
    modifies a
    ensures multiset(a[begin..end]) == old(multiset(a[begin..end]))
    ensures a[..begin] == old(a[..begin]) && a[end..] == old(a[end..])
    ensures InRange(reference, a[begin..end]) && SplitAt(reference, axis, a[begin..end], middle - begin)
  {
    assert forall i :: begin <= i < end ==> a[i] == a[begin..end][i - begin];
    SelectSmallest(a, begin, middle, end, Comparator(reference, axis), |reference|);
    SamePermutationElements(old(a[begin..end]), a[begin..end]);
    InRangePermuted(reference, old(a[begin..end]), a[begin..end]);
    assert forall i :: begin <= i < end ==> a[i] == a[begin..end][i - begin];
  }

  /** std::sort of a leaf's ids. */
  method Sort(a: array<nat>, begin: nat, end: nat, ghost bound: nat)
    requires begin <= end <= a.Length && Bounded(a[..], begin, end, bound)
    modifies a
    ensures multiset(a[begin..end]) == old(multiset(a[begin..end]))
    ensures a[..begin] == old(a[..begin]) && a[end..] == old(a[end..])
    ensures Ascending(a[begin..end])
  {
    SelectSmallest(a, begin, end, end, (x: nat, y: nat) => x < y, bound);
  }

  // ----- construction -----

  /** The bounds and the smallest id of a packed range. */
  method Measure(reference: seq<Vec3>, ids: seq<nat>) returns (lower: Vec3, upper: Vec3, minimum: int)
    requires ids != [] && InRange(reference, ids) && |reference| <= INT32_MAX
    ensures ExactNode(reference, ids, Node(lower, upper, 0, 0, 0, minimum))
  {
    lower, upper := reference[ids[0]], reference[ids[0]];
    minimum := INT32_MAX;
    for i := 0 to |ids|
      invariant i == 0 ==> lower == upper == reference[ids[0]] && minimum == INT32_MAX
      invariant i > 0 ==> ExactNode(reference, ids[..i], Node(lower, upper, 0, 0, 0, minimum))
    {
      var p := reference[ids[i]];
      ghost var before := Node(lower, upper, 0, 0, 0, minimum);
      lower := Vec3(MinReal(lower.x, p.x), MinReal(lower.y, p.y), MinReal(lower.z, p.z));
      upper := Vec3(MaxReal(upper.x, p.x), MaxReal(upper.y, p.y), MaxReal(upper.z, p.z));
      minimum := Min(minimum, ids[i]);
      ExactNodeGrows(reference, ids, i, before, Node(lower, upper, 0, 0, 0, minimum));
    }
    assert ids[..|ids|] == ids;
  }

  function MinReal(a: real, b: real): real {
    if b < a then b else a
  }

  function MaxReal(a: real, b: real): real {
    if a < b then b else a
  }

  lemma ExactNodeGrows(reference: seq<Vec3>, ids: seq<nat>, i: nat, before: Node, after: Node)
    requires i < |ids| && InRange(reference, ids) && |reference| <= INT32_MAX
    requires if i == 0 then before.lower == before.upper == reference[ids[0]] && before.minimum == INT32_MAX
             else ExactNode(reference, ids[..i], before)
    requires var p := reference[ids[i]];
      forall axis: nat :: axis < 3 ==>
        && Coordinate(after.lower, axis) == MinReal(Coordinate(before.lower, axis), Coordinate(p, axis))
        && Coordinate(after.upper, axis) == MaxReal(Coordinate(before.upper, axis), Coordinate(p, axis))
    requires after.minimum == Min(before.minimum, ids[i])
    ensures ExactNode(reference, ids[..i + 1], after)
  {
    var s, t := ids[..i], ids[..i + 1];
    forall axis: nat | axis < 3
      ensures ExactLower(reference, t, axis, Coordinate(after.lower, axis))
      ensures ExactUpper(reference, t, axis, Coordinate(after.upper, axis))
    {
      if i > 0 {
        assert ExactLower(reference, s, axis, Coordinate(before.lower, axis));
        assert ExactUpper(reference, s, axis, Coordinate(before.upper, axis));
        var l :| 0 <= l < i && Coordinate(before.lower, axis) == Coordinate(reference[s[l]], axis);
        var u :| 0 <= u < i && Coordinate(before.upper, axis) == Coordinate(reference[s[u]], axis);
        assert t[l] == s[l] && t[u] == s[u];
      }
      assert t[i] == ids[i];
      assert forall k :: 0 <= k < i ==> t[k] == s[k];
    }
    assert t[i] == ids[i];
    assert forall k :: 0 <= k < i ==> t[k] == s[k];
    if i > 0 {
      var k :| 0 <= k < i && s[k] == before.minimum;
      assert t[k] == s[k];
    }
  }

  /** The interior node's facts, once both halves have been rearranged by their own builds. */
  lemma InteriorOk(reference: seq<Vec3>, split: seq<nat>, final: seq<nat>, node: Node)
    requires InRange(reference, split) && ExactNode(reference, split, node) && node.count == 0
    requires SplitAt(reference, WidestAxis(node.lower, node.upper), split, |split| / 2)
    requires |final| == |split|
    requires multiset(final[..|split| / 2]) == multiset(split[..|split| / 2])
    requires multiset(final[|split| / 2..]) == multiset(split[|split| / 2..])
    ensures NodeOk(reference, final, node) && multiset(final) == multiset(split)
  {
    var m := |split| / 2;
    assert final == final[..m] + final[m..] && split == split[..m] + split[m..];
    SamePermutationElements(final, split);
    SamePermutationElements(final[..m], split[..m]);
    SamePermutationElements(final[m..], split[m..]);
    InRangePermuted(reference, split, final);
    ExactNodePermuted(reference, split, final, node);
    SplitPermuted(reference, WidestAxis(node.lower, node.upper), split, final, m);
  }

  lemma LeafBuilt(reference: seq<Vec3>, order: seq<nat>, nodes: seq<Node>, first: nat, begin: nat, end: nat)
    requires begin < end <= |order| && end - begin <= LEAF_CAPACITY && first + 1 == |nodes|
    requires nodes[first].begin == begin && nodes[first].count == end - begin && nodes[first].escape == first + 1
    requires NodeOk(reference, order[begin..end], nodes[first])
    ensures Built(Exact(reference), order, nodes, first, first + 1, begin, end)
  {
  }

  /** z rearranges s within [begin, end) and leaves the rest alone. */
  ghost predicate Rearranges(s: seq<nat>, z: seq<nat>, begin: nat, end: nat)
    requires begin <= end <= |s|
  {
    && |z| == |s|
    && multiset(z[begin..end]) == multiset(s[begin..end])
    && z[..begin] == s[..begin] && z[end..] == s[end..]
  }

  lemma RearrangeHalves(s: seq<nat>, t: seq<nat>, z: seq<nat>, begin: nat, middle: nat, end: nat)
    requires begin <= middle <= end <= |s| && Rearranges(s, t, begin, middle) && Rearranges(t, z, middle, end)
    ensures multiset(z[begin..middle]) == multiset(s[begin..middle])
    ensures multiset(z[middle..end]) == multiset(s[middle..end])
    ensures z[begin..middle] == t[begin..middle]
    ensures Rearranges(s, z, begin, end)
  {
    assert z[begin..middle] == z[..middle][begin..] == t[..middle][begin..] == t[begin..middle];
    assert t[middle..end] == t[middle..][..end - middle] == s[middle..][..end - middle] == s[middle..end];
    assert z[begin..end] == z[begin..middle] + z[middle..end];
    assert s[begin..end] == s[begin..middle] + s[middle..end];
    assert z[..begin] == z[..middle][..begin] == t[..middle][..begin] == s[..begin];
    assert z[end..] == t[end..] == t[middle..][end - middle..] == s[middle..][end - middle..] == s[end..];
  }

  lemma RearrangeTwice(s: seq<nat>, t: seq<nat>, z: seq<nat>, begin: nat, end: nat)
    requires begin <= end <= |s| && Rearranges(s, t, begin, end) && Rearranges(t, z, begin, end)
    ensures Rearranges(s, z, begin, end)
  {
  }

  lemma RearrangedInRange(reference: seq<Vec3>, s: seq<nat>, z: seq<nat>, begin: nat, end: nat)
    requires begin <= end <= |s| && Rearranges(s, z, begin, end) && InRange(reference, s)
    ensures InRange(reference, z)
  {
    SamePermutationElements(s[begin..end], z[begin..end]);
    InRangePermuted(reference, s[begin..end], z[begin..end]);
    forall i | 0 <= i < |z|
      ensures z[i] < |reference|
    {
      if i < begin {
        assert z[i] == z[..begin][i] == s[..begin][i];
      } else if i < end {
        assert z[i] == z[begin..end][i - begin];
      } else {
        assert z[i] == z[end..][i - end] == s[end..][i - end];
      }
    }
  }

  lemma InteriorNodeOk(reference: seq<Vec3>, split: seq<nat>, final: seq<nat>, begin: nat, middle: nat, end: nat, node: Node)
    requires begin < middle < end <= |split| && middle == begin + (end - begin) / 2
    requires InRange(reference, split[begin..end]) && ExactNode(reference, split[begin..end], node) && node.count == 0
    requires SplitAt(reference, WidestAxis(node.lower, node.upper), split[begin..end], middle - begin)
    requires |final| == |split|
    requires multiset(final[begin..middle]) == multiset(split[begin..middle])
    requires multiset(final[middle..end]) == multiset(split[middle..end])
    ensures NodeOk(reference, final[begin..end], node)
  {
    var a, b, m := split[begin..end], final[begin..end], middle - begin;
    assert a[..m] == split[begin..middle] && b[..m] == final[begin..middle];
    assert a[m..] == split[middle..end] && b[m..] == final[middle..end];
    InteriorOk(reference, a, b, node);
  }

  /** The subtree left behind once both halves of a split range have been built. */
  lemma InteriorBuilt(ok: (seq<nat>, Node) -> bool, halfway: seq<nat>, final: seq<nat>,
                      n2: seq<Node>, n3: seq<Node>, first: nat, begin: nat, middle: nat, end: nat, node: Node)
    requires begin < middle < end <= |final| && end - begin > LEAF_CAPACITY && middle == begin + (end - begin) / 2
    requires ok(final[begin..end], node)
    requires node.begin == begin && node.count == 0 && node.escape == |n3|
    requires middle <= |halfway| && final[begin..middle] == halfway[begin..middle]
    requires first + 1 <= |n2| <= |n3| && n3[..|n2|] == n2
    requires Built(ok, halfway, n2, first + 1, |n2|, begin, middle)
    requires Built(ok, final, n3, |n2|, |n3|, middle, end)
    ensures Built(ok, final, n3[first := node], first, |n3|, begin, end)
  {
    var nodes := n3[first := node];
    assert forall c :: first + 1 <= c < |n2| ==> nodes[c] == n3[..|n2|][c] == n2[c];
    BuiltFrame(ok, halfway, n2, final, nodes, first + 1, |n2|, begin, middle);
    BuiltFrame(ok, final, n3, final, nodes, |n2|, |n3|, middle, end);
    assert Layout(nodes, first + 1, |n2|, begin, middle);
    ParentBuilt(ok, final, nodes, first, |n3|, begin, end);
  }

  /** What the interior node's own range satisfies in the end. */
  lemma InteriorRange(reference: seq<Vec3>, start: seq<nat>, split: seq<nat>, halfway: seq<nat>, final: seq<nat>,
                      begin: nat, middle: nat, end: nat, node: Node)
    requires begin < middle < end <= |start| && middle == begin + (end - begin) / 2 && node.count == 0
    requires Rearranges(start, split, begin, end)
    requires InRange(reference, split[begin..end]) && ExactNode(reference, split[begin..end], node)
    requires SplitAt(reference, WidestAxis(node.lower, node.upper), split[begin..end], middle - begin)
    requires Rearranges(split, halfway, begin, middle) && Rearranges(halfway, final, middle, end)
    ensures Exact(reference)(final[begin..end], node)
    ensures Rearranges(start, final, begin, end) && final[begin..middle] == halfway[begin..middle]
  {
    RearrangeHalves(split, halfway, final, begin, middle, end);
    RearrangeTwice(start, split, final, begin, end);
    InteriorNodeOk(reference, split, final, begin, middle, end, node);
  }

  /** The result under construction: original_indices, permuted in place, and nodes, appended to. */
  class Builder {
    const reference: seq<Vec3>
    const original: array<nat>
    var nodes: seq<Node>

    ghost predicate Valid()
      reads original
    {
      |reference| <= INT32_MAX && original.Length == |reference| && InRange(reference, original[..])
    }

    constructor (points: seq<Vec3>)
      requires |points| <= INT32_MAX
      ensures Valid() && fresh(original) && reference == points && nodes == []
      ensures original[..] == seq(|points|, i requires 0 <= i < |points| => i)
    {
      reference := points;
      original := new nat[|points|](i => i);
      nodes := [];
    }

    /** Builds the subtree of the packed range [begin, end) behind the nodes built so far. */
    method Build(begin: nat, end: nat)
      requires Valid() && begin < end <= original.Length
      modifies this`nodes, original
      ensures Valid()
      ensures |nodes| > |old(nodes)| && nodes[..|old(nodes)|] == old(nodes)
      ensures Rearranges(old(original[..]), original[..], begin, end)
      ensures Built(Exact(reference), original[..], nodes, |old(nodes)|, |nodes|, begin, end)
      decreases end - begin, 3
    {
      var first := |nodes|;
      var lower, upper, minimum := Measure(reference, original[begin..end]);
      var node := Node(lower, upper, begin, end - begin, 0, minimum);
      assert original[begin..end] == original[..][begin..end];
      if end - begin <= LEAF_CAPACITY {
        nodes := nodes + [node];
        SortLeaf(begin, end, node);
        node := node.(escape := |nodes|);
        nodes := nodes[first := node];
        LeafBuilt(reference, original[..], nodes, first, begin, end);
      } else {
        BuildInterior(begin, end, node);
      }
    }

    method BuildInterior(begin: nat, end: nat, root: Node)
      requires Valid() && begin < end <= original.Length && end - begin > LEAF_CAPACITY
      requires root.begin == begin && ExactNode(reference, original[..][begin..end], root)
      modifies this`nodes, original
      ensures Valid()
      ensures |nodes| > |old(nodes)| && nodes[..|old(nodes)|] == old(nodes)
      ensures Rearranges(old(original[..]), original[..], begin, end)
      ensures Built(Exact(reference), original[..], nodes, |old(nodes)|, |nodes|, begin, end)
      decreases end - begin, 2
    {
      var first, middle := |nodes|, begin + (end - begin) / 2;
      ghost var n0 := nodes;
      nodes := nodes + [root];
      ghost var n1 := nodes;
      ghost var halfway, n2 := SplitAndBuildHalves(begin, middle, end, root.(count := 0));
      var node := root.(count := 0, escape := |nodes|);
      assert nodes[..first] == n2[..|n1|][..first] == n0;
      InteriorBuilt(Exact(reference), halfway, original[..], n2, nodes, first, begin, middle, end, node);
      nodes := nodes[first := node];
    }

    method SplitAndBuildHalves(begin: nat, middle: nat, end: nat, node: Node)
      returns (ghost halfway: seq<nat>, ghost n2: seq<Node>)
      requires Valid() && begin < middle < end <= original.Length && middle == begin + (end - begin) / 2
      requires ExactNode(reference, original[..][begin..end], node) && node.count == 0
      modifies this`nodes, original
      ensures Valid()
      ensures Rearranges(old(original[..]), original[..], begin, end)
      ensures Exact(reference)(original[..][begin..end], node.(escape := |nodes|))
      ensures |old(nodes)| < |n2| < |nodes| && n2[..|old(nodes)|] == old(nodes) && nodes[..|n2|] == n2
      ensures |halfway| == original.Length && original[..][begin..middle] == halfway[begin..middle]
      ensures Built(Exact(reference), halfway, n2, |old(nodes)|, |n2|, begin, middle)
      ensures Built(Exact(reference), original[..], nodes, |n2|, |nodes|, middle, end)
      decreases end - begin, 1
    {
      ghost var start := original[..];
      SplitRange(begin, middle, end, node);
      ghost var split := original[..];
      halfway, n2 := BuildHalves(begin, middle, end);
      InteriorRange(reference, start, split, halfway, original[..], begin, middle, end, node.(escape := |nodes|));
    }

    /** The two recursive calls; halfway and n2 are the state between them. */
    method BuildHalves(begin: nat, middle: nat, end: nat) returns (ghost halfway: seq<nat>, ghost n2: seq<Node>)
      requires Valid() && begin < middle < end <= original.Length
      modifies this`nodes, original
      ensures Valid()
      ensures Rearranges(old(original[..]), halfway, begin, middle) && Rearranges(halfway, original[..], middle, end)
      ensures |old(nodes)| < |n2| < |nodes| && n2[..|old(nodes)|] == old(nodes) && nodes[..|n2|] == n2
      ensures Built(Exact(reference), halfway, n2, |old(nodes)|, |n2|, begin, middle)
      ensures Built(Exact(reference), original[..], nodes, |n2|, |nodes|, middle, end)
      decreases end - begin, 0
    {
      Build(begin, middle);
      halfway, n2 := original[..], nodes;
      Build(middle, end);
    }

    method SortLeaf(begin: nat, end: nat, ghost node: Node)
      requires Valid() && begin < end <= original.Length && node.count != 0
      requires ExactNode(reference, original[..][begin..end], node)
      modifies original
      ensures Valid() && Rearranges(old(original[..]), original[..], begin, end)
      ensures NodeOk(reference, original[..][begin..end], node)
    {
      ghost var s := original[..];
      assert original[begin..end] == s[begin..end];
      Sort(original, begin, end, |reference|);
      assert original[begin..end] == original[..][begin..end] && original[..begin] == original[..][..begin]
        && original[end..] == original[..][end..];
      RearrangedInRange(reference, s, original[..], begin, end);
      SamePermutationElements(s[begin..end], original[..][begin..end]);
      ExactNodePermuted(reference, s[begin..end], original[..][begin..end], node);
    }

    method SplitRange(begin: nat, middle: nat, end: nat, node: Node)
      requires Valid() && begin < middle < end <= original.Length
      requires ExactNode(reference, original[..][begin..end], node)
      modifies original
      ensures Valid() && Rearranges(old(original[..]), original[..], begin, end)
      ensures ExactNode(reference, original[..][begin..end], node)
      ensures SplitAt(reference, WidestAxis(node.lower, node.upper), original[..][begin..end], middle - begin)
    {
      ghost var s := original[..];
      assert original[begin..end] == s[begin..end];
      NthElement(reference, original, begin, middle, end, WidestAxis(node.lower, node.upper));
      assert original[begin..end] == original[..][begin..end] && original[..begin] == original[..][..begin]
        && original[end..] == original[..][end..];
      RearrangedInRange(reference, s, original[..], begin, end);
      SamePermutationElements(s[begin..end], original[..][begin..end]);
      ExactNodePermuted(reference, s[begin..end], original[..][begin..end], node);
    }
  }

  // ----- the whole construction -----

  lemma {:induction false} IndicesOnce(n: nat, x: nat)
    ensures multiset(Indices(n))[x] == if x < n then 1 else 0
  {
    if n > 0 {
      IndicesOnce(n - 1, x);
      assert Indices(n) == Indices(n - 1) + [n - 1];
    }
  }

  /** A rearrangement of 0, ..., n - 1 lists every index once. */
  lemma IndicesPermuted(s: seq<nat>, n: nat)
    requires multiset(s) == multiset(Indices(n))
    ensures |s| == n && Distinct(s)
  {
    SamePermutationElements(s, Indices(n));
    forall i, j | 0 <= i < j < |s|
      ensures s[i] != s[j]
    {
      IndicesOnce(n, s[i]);
      assert s == s[..j] + s[j..];
      assert s[i] == s[..j][i] && s[j] == s[j..][0];
    }
  }

  datatype BuildError = BadSize | NotFinite

  /** The points of a cloud none of whose coordinates is an infinity or a NaN. */
  function Points(samples: seq<Option<Vec3>>): (points: seq<Vec3>)
    requires forall i :: 0 <= i < |samples| ==> samples[i].Some?
    ensures |points| == |samples|
  {
    seq(|samples|, i requires 0 <= i < |samples| => samples[i].value)
  }

  /** build_spatial_index; None marks a point with a coordinate that is not finite. */
  method BuildSpatialIndex(samples: seq<Option<Vec3>>) returns (r: Result<Index, BuildError>)
    ensures r == Failure(BadSize) <==> |samples| == 0 || |samples| > INT32_MAX
    ensures r == Failure(NotFinite) <==> 0 < |samples| <= INT32_MAX && None in samples
    ensures r.Success? <==> 0 < |samples| <= INT32_MAX && forall i :: 0 <= i < |samples| ==> samples[i].Some?
    ensures r.Success? ==> IsIndex(Points(samples), r.value) && |r.value.nodes| <= |samples| / 4 + 1
  {
    if |samples| == 0 || |samples| > INT32_MAX {
      return Failure(BadSize);
    }
    for i := 0 to |samples|
      invariant forall j :: 0 <= j < i ==> samples[j].Some?
    {
      if samples[i] == None {
        return Failure(NotFinite);
      }
    }
    var index := BuildFinite(Points(samples));
    r := Success(index);
  }

  method BuildFinite(reference: seq<Vec3>) returns (index: Index)
    requires 0 < |reference| <= INT32_MAX
    ensures IsIndex(reference, index) && |index.nodes| <= |reference| / 4 + 1
  {
    var n := |reference|;
    var builder := new Builder(reference);
    builder.Build(0, n);
    ghost var order := builder.original[..];
    assert order[0..n] == order && Indices(n)[0..n] == Indices(n);
    IndicesPermuted(order, n);
    var points: seq<Vec3> := [];
    for i := 0 to n
      invariant |points| == i && forall k :: 0 <= k < i ==> points[k] == reference[order[k]]
      invariant builder.original[..] == order
    {
      points := points + [reference[builder.original[i]]];
    }
    index := Index(points, builder.original[..], builder.nodes);
    NodeCount(index.nodes, 0, |index.nodes|, 0, n);
  }
}
