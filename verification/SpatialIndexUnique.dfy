/**
  The packed layout is unique: whatever legal choices nth_element makes, the same points give the
  same index.
 */
module SpatialIndexUnique {
  import opened Basics
  import opened SpatialIndex

  /** If two halvings differ, one element moves each way across the middle. */
  lemma Crossing(a: seq<nat>, b: seq<nat>, m: nat) returns (xa: nat, xb: nat, ya: nat, yb: nat)
    requires Distinct(a) && Distinct(b) && Elements(a) == Elements(b) && m <= |a| == |b|
    requires Elements(a[..m]) != Elements(b[..m])
    ensures xa < m <= xb < |b| && a[xa] == b[xb]
    ensures yb < m <= ya < |a| && a[ya] == b[yb]
  {
    var s, t := Elements(a[..m]), Elements(b[..m]);
    DistinctSize(a[..m]);
    DistinctSize(b[..m]);
    if s <= t {
      SubsetOfSameSize(s, t);
    }
    if t <= s {
      SubsetOfSameSize(t, s);
    }
    assert forall i :: 0 <= i < m ==> a[..m][i] == a[i] && b[..m][i] == b[i];
    var x :| x in s && x !in t;
    var y :| y in t && y !in s;
    xa :| xa < m && a[xa] == x;
    yb :| yb < m && b[yb] == y;
    assert x in Elements(b) && y in Elements(a);
    xb :| xb < |b| && b[xb] == x;
    ya :| ya < |a| && a[ya] == y;
  }

  lemma SidesOrdered(reference: seq<Vec3>, axis: nat, ids: seq<nat>, m: nat, i: nat, j: nat)
    requires InRange(reference, ids) && SplitAt(reference, axis, ids, m) && Distinct(ids)
    requires i < m <= j < |ids|
    ensures Less(reference, axis, ids[i], ids[j])
  {
    assert !Less(reference, axis, ids[j], ids[i]);
  }

  /** The (coordinate, index) order leaves no choice of which elements go to which side. */
  lemma SplitIsUnique(reference: seq<Vec3>, axis: nat, a: seq<nat>, b: seq<nat>, m: nat)
    requires InRange(reference, a) && InRange(reference, b) && Distinct(a) && Distinct(b)
    requires Elements(a) == Elements(b) && m <= |a| == |b|
    requires SplitAt(reference, axis, a, m) && SplitAt(reference, axis, b, m)
    ensures Elements(a[..m]) == Elements(b[..m])
  {
    if Elements(a[..m]) != Elements(b[..m]) {
      var xa, xb, ya, yb := Crossing(a, b, m);
      SidesOrdered(reference, axis, a, m, xa, ya);
      SidesOrdered(reference, axis, b, m, yb, xb);
    }
  }

  /** The second halves then hold the same elements too. */
  lemma SplitRest(a: seq<nat>, b: seq<nat>, m: nat)
    requires Distinct(a) && Distinct(b) && Elements(a) == Elements(b) && m <= |a| == |b|
    requires Elements(a[..m]) == Elements(b[..m])
    ensures Elements(a[m..]) == Elements(b[m..])
  {
    assert Elements(a[m..]) == Elements(a) - Elements(a[..m]);
    assert Elements(b[m..]) == Elements(b) - Elements(b[..m]);
  }

  /** Exact bounds and minimum are functions of the set of ids. */
  lemma ExactNodeIsUnique(reference: seq<Vec3>, a: seq<nat>, b: seq<nat>, node: Node, node': Node)
    requires InRange(reference, a) && InRange(reference, b) && Elements(a) == Elements(b)
    requires ExactNode(reference, a, node) && ExactNode(reference, b, node')
    ensures node.lower == node'.lower && node.upper == node'.upper && node.minimum == node'.minimum
  {
    forall axis: nat | axis < 3
      ensures Coordinate(node.lower, axis) == Coordinate(node'.lower, axis)
      ensures Coordinate(node.upper, axis) == Coordinate(node'.upper, axis)
    {
      BoundIsUnique(reference, a, b, axis, Coordinate(node.lower, axis), Coordinate(node'.lower, axis),
                    Coordinate(node.upper, axis), Coordinate(node'.upper, axis));
    }
    assert Coordinate(node.lower, 0) == Coordinate(node'.lower, 0) && Coordinate(node.lower, 1) == Coordinate(node'.lower, 1)
      && Coordinate(node.lower, 2) == Coordinate(node'.lower, 2);
    assert Coordinate(node.upper, 0) == Coordinate(node'.upper, 0) && Coordinate(node.upper, 1) == Coordinate(node'.upper, 1)
      && Coordinate(node.upper, 2) == Coordinate(node'.upper, 2);
    var i :| 0 <= i < |a| && a[i] == node.minimum;
    var j :| 0 <= j < |b| && b[j] == node'.minimum;
    assert a[i] in Elements(b) && b[j] in Elements(a);
  }

  lemma BoundIsUnique(reference: seq<Vec3>, a: seq<nat>, b: seq<nat>, axis: nat,
                      l: real, l': real, u: real, u': real)
    requires InRange(reference, a) && InRange(reference, b) && Elements(a) == Elements(b)
    requires ExactLower(reference, a, axis, l) && ExactLower(reference, b, axis, l')
    requires ExactUpper(reference, a, axis, u) && ExactUpper(reference, b, axis, u')
    ensures l == l' && u == u'
  {
    var i :| 0 <= i < |a| && l == Coordinate(reference[a[i]], axis);
    var j :| 0 <= j < |b| && l' == Coordinate(reference[b[j]], axis);
    var p :| 0 <= p < |a| && u == Coordinate(reference[a[p]], axis);
    var q :| 0 <= q < |b| && u' == Coordinate(reference[b[q]], axis);
    assert a[i] in Elements(b) && b[j] in Elements(a) && a[p] in Elements(b) && b[q] in Elements(a);
  }

  /** Both halves of two interior nodes over the same ids hold the same ids. */
  lemma HalvesAgree(reference: seq<Vec3>, a: seq<nat>, node: Node, b: seq<nat>, node': Node)
    requires NodeOk(reference, a, node) && NodeOk(reference, b, node') && node.count == 0 && node'.count == 0
    requires node.lower == node'.lower && node.upper == node'.upper
    requires Distinct(a) && Distinct(b) && |a| == |b| && Elements(a) == Elements(b)
    ensures Elements(a[..|a| / 2]) == Elements(b[..|b| / 2])
    ensures Elements(a[|a| / 2..]) == Elements(b[|b| / 2..])
  {
    SplitIsUnique(reference, WidestAxis(node.lower, node.upper), a, b, |a| / 2);
    SplitRest(a, b, |a| / 2);
  }

  lemma LeavesAgree(reference: seq<Vec3>, a: seq<nat>, node: Node, b: seq<nat>, node': Node)
    requires NodeOk(reference, a, node) && NodeOk(reference, b, node') && node.count != 0 && node'.count != 0
    requires Distinct(a) && Distinct(b) && Elements(a) == Elements(b)
    ensures a == b
  {
    AscendingIsUnique(a, b);
  }

  predicate SameFields(u: Node, v: Node) {
    u.lower == v.lower && u.upper == v.upper && u.minimum == v.minimum
  }

  /** Two nodes over the same distinct ids have the same bounds, the same halves, and, if leaves,
      the same packing. */
  ghost predicate Determined(a: seq<nat>, b: seq<nat>, u: Node, v: Node) {
    (Distinct(a) && Distinct(b) && |a| == |b| && Elements(a) == Elements(b)) ==>
      && SameFields(u, v)
      && (u.count != 0 && v.count != 0 ==> a == b)
      && (u.count == 0 && v.count == 0 ==>
            && Elements(a[..|a| / 2]) == Elements(b[..|b| / 2])
            && Elements(a[|a| / 2..]) == Elements(b[|b| / 2..]))
  }

  ghost predicate Determines(ok: (seq<nat>, Node) -> bool) {
    forall a: seq<nat>, b: seq<nat>, u, v {:trigger Determined(a, b, u, v)} :: ok(a, u) && ok(b, v) ==> Determined(a, b, u, v)
  }

  lemma ExactDetermines(reference: seq<Vec3>)
    ensures Determines(Exact(reference))
  {
    var ok := Exact(reference);
    forall a: seq<nat>, b: seq<nat>, u, v | ok(a, u) && ok(b, v)
      ensures Determined(a, b, u, v)
    {
      if Distinct(a) && Distinct(b) && |a| == |b| && Elements(a) == Elements(b) {
        ExactNodeIsUnique(reference, a, b, u, v);
        if u.count != 0 && v.count != 0 {
          LeavesAgree(reference, a, u, b, v);
        } else if u.count == 0 && v.count == 0 {
          HalvesAgree(reference, a, u, b, v);
        }
      }
    }
  }

  /** The conclusion: the same nodes and the same packed positions. */
  ghost predicate Agree(o1: seq<nat>, n1: seq<Node>, o2: seq<nat>, n2: seq<Node>,
                        first: nat, next1: nat, next2: nat, begin: nat, end: nat)
    requires next1 <= |n1| && next2 <= |n2| && begin <= end <= |o1| && end <= |o2|
  {
    && next1 == next2
    && (forall c :: first <= c < next1 ==> n1[c] == n2[c])
    && (forall i :: begin <= i < end ==> o1[i] == o2[i])
  }

  ghost predicate SameIds(o1: seq<nat>, o2: seq<nat>, begin: nat, end: nat)
    requires begin <= end <= |o1| && end <= |o2|
  {
    Distinct(o1[begin..end]) && Distinct(o2[begin..end]) && Elements(o1[begin..end]) == Elements(o2[begin..end])
  }

  lemma HalvesSameIds(o1: seq<nat>, o2: seq<nat>, begin: nat, middle: nat, end: nat)
    requires begin <= middle <= end <= |o1| && end <= |o2| && SameIds(o1, o2, begin, end)
    requires Elements(o1[begin..end][..middle - begin]) == Elements(o2[begin..end][..middle - begin])
    requires Elements(o1[begin..end][middle - begin..]) == Elements(o2[begin..end][middle - begin..])
    ensures SameIds(o1, o2, begin, middle) && SameIds(o1, o2, middle, end)
  {
    var a, b, m := o1[begin..end], o2[begin..end], middle - begin;
    assert o1[begin..middle] == a[..m] && o2[begin..middle] == b[..m];
    assert o1[middle..end] == a[m..] && o2[middle..end] == b[m..];
  }

  lemma RootOk(ok: (seq<nat>, Node) -> bool, order: seq<nat>, nodes: seq<Node>,
               first: nat, next: nat, begin: nat, end: nat)
    requires Built(ok, order, nodes, first, next, begin, end)
    ensures ok(order[begin..end], nodes[first])
  {
    assert ok(RangeOf(order, nodes, next, end, first), nodes[first]);
  }

  /** What the roots of two subtrees over the same ids have in common. */
  lemma RootsAgree(ok: (seq<nat>, Node) -> bool, o1: seq<nat>, n1: seq<Node>, o2: seq<nat>, n2: seq<Node>,
                   first: nat, next1: nat, next2: nat, begin: nat, end: nat)
    requires Determines(ok)
    requires Built(ok, o1, n1, first, next1, begin, end) && Built(ok, o2, n2, first, next2, begin, end)
    requires SameIds(o1, o2, begin, end)
    ensures n1[first].(escape := next2) == n2[first]
    ensures end - begin <= LEAF_CAPACITY ==> Agree(o1, n1, o2, n2, first, next1, next2, begin, end)
    ensures end - begin > LEAF_CAPACITY ==>
      var middle := begin + (end - begin) / 2;
      SameIds(o1, o2, begin, middle) && SameIds(o1, o2, middle, end)
  {
    var a, b := o1[begin..end], o2[begin..end];
    RootOk(ok, o1, n1, first, next1, begin, end);
    RootOk(ok, o2, n2, first, next2, begin, end);
    assert Determined(a, b, n1[first], n2[first]);
    if end - begin <= LEAF_CAPACITY {
      assert forall i :: begin <= i < end ==> o1[i] == a[i - begin] && o2[i] == b[i - begin];
    } else {
      HalvesSameIds(o1, o2, begin, begin + (end - begin) / 2, end);
    }
  }

  lemma AgreeFromParts(o1: seq<nat>, n1: seq<Node>, o2: seq<nat>, n2: seq<Node>,
                       first: nat, s1: nat, s2: nat, next1: nat, next2: nat, begin: nat, middle: nat, end: nat)
    requires first < s1 <= next1 <= |n1| && first < s2 <= next2 <= |n2| && begin <= middle <= end <= |o1| && end <= |o2|
    requires n1[first].(escape := next2) == n2[first] && n1[first].escape == next1
    requires Agree(o1, n1, o2, n2, first + 1, s1, s2, begin, middle)
    requires Agree(o1, n1, o2, n2, s1, next1, next2, middle, end)
    ensures Agree(o1, n1, o2, n2, first, next1, next2, begin, end)
  {
  }

  /** Two subtrees over the same ids agree in every node and every packed position. */
  lemma {:induction false} SubtreeIsUnique(ok: (seq<nat>, Node) -> bool, o1: seq<nat>, n1: seq<Node>, o2: seq<nat>, n2: seq<Node>,
                                           first: nat, next1: nat, next2: nat, begin: nat, end: nat)
    requires Determines(ok)
    requires Built(ok, o1, n1, first, next1, begin, end) && Built(ok, o2, n2, first, next2, begin, end)
    requires SameIds(o1, o2, begin, end)
    ensures Agree(o1, n1, o2, n2, first, next1, next2, begin, end)
    decreases end - begin
  {
    RootsAgree(ok, o1, n1, o2, n2, first, next1, next2, begin, end);
    if end - begin > LEAF_CAPACITY {
      var middle, s1, s2 := begin + (end - begin) / 2, n1[first + 1].escape, n2[first + 1].escape;
      ChildrenBuilt(ok, o1, n1, first, next1, begin, end);
      ChildrenBuilt(ok, o2, n2, first, next2, begin, end);
      SubtreeIsUnique(ok, o1, n1, o2, n2, first + 1, s1, s2, begin, middle);
      SubtreeIsUnique(ok, o1, n1, o2, n2, s1, next1, next2, middle, end);
      AgreeFromParts(o1, n1, o2, n2, first, s1, s2, next1, next2, begin, middle, end);
    }
  }

  /** Any two indexes over the same reference are identical. */
  lemma IndexIsUnique(reference: seq<Vec3>, i1: Index, i2: Index)
    requires IsIndex(reference, i1) && IsIndex(reference, i2)
    ensures i1 == i2
  {
    PermutationElements(i1.original, |reference|);
    PermutationElements(i2.original, |reference|);
    assert i1.original[0..|reference|] == i1.original && i2.original[0..|reference|] == i2.original;
    ExactDetermines(reference);
    SubtreeIsUnique(Exact(reference), i1.original, i1.nodes, i2.original, i2.nodes, 0, |i1.nodes|, |i2.nodes|, 0, |reference|);
    assert i1.nodes == i2.nodes && i1.original == i2.original;
  }

  /** n distinct indices below n are all of them. */
  lemma PermutationElements(ids: seq<nat>, n: nat)
    requires Distinct(ids) && |ids| == n && forall i :: 0 <= i < n ==> ids[i] < n
    ensures forall c: nat :: c in Elements(ids) <==> c < n
  {
    var all := set c: nat {:trigger c in Elements(ids)} | c < n;
    DistinctSize(ids);
    RangeSize(all, 0, n);
    SubsetOfSameSize(Elements(ids), all);
  }
}
