/**
  The disjoint-set forest of src/backends/pcl/pcl_cluster_backend.cpp: union by rank with full path
  compression. Its roots are the connected components of the pairs united so far.
 */
module DisjointSets {
  import opened Basics

  // ----- connectivity -----

  predicate Joined(edges: set<(nat, nat)>, a: nat, b: nat) {
    (a, b) in edges || (b, a) in edges
  }

  ghost predicate IsChain(edges: set<(nat, nat)>, path: seq<nat>) {
    path != [] && forall k :: 0 <= k < |path| - 1 ==> Joined(edges, path[k], path[k + 1])
  }

  ghost predicate Joins(edges: set<(nat, nat)>, path: seq<nat>, a: nat, b: nat) {
    IsChain(edges, path) && path[0] == a && path[|path| - 1] == b
  }

  /** A chain of pairs leads from a to b. */
  ghost predicate Connected(edges: set<(nat, nat)>, a: nat, b: nat) {
    exists path :: Joins(edges, path, a, b)
  }

  lemma ConnectedReflexive(edges: set<(nat, nat)>, a: nat)
    ensures Connected(edges, a, a)
  {
    assert Joins(edges, [a], a, a);
  }

  lemma ConnectedPair(edges: set<(nat, nat)>, a: nat, b: nat)
    requires Joined(edges, a, b)
    ensures Connected(edges, a, b)
  {
    assert Joins(edges, [a, b], a, b);
  }

  lemma ConnectedTransitive(edges: set<(nat, nat)>, a: nat, b: nat, c: nat)
    requires Connected(edges, a, b) && Connected(edges, b, c)
    ensures Connected(edges, a, c)
  {
    var s :| Joins(edges, s, a, b);
    var t :| Joins(edges, t, b, c);
    var path := s + t[1..];
    forall k | 0 <= k < |path| - 1
      ensures Joined(edges, path[k], path[k + 1])
    {
      if k >= |s| - 1 {
        assert path[k] == t[k - (|s| - 1)] && path[k + 1] == t[k + 1 - (|s| - 1)];
      }
    }
    assert Joins(edges, path, a, c);
  }

  lemma ConnectedSymmetric(edges: set<(nat, nat)>, a: nat, b: nat)
    requires Connected(edges, a, b)
    ensures Connected(edges, b, a)
  {
    var s :| Joins(edges, s, a, b);
    var n := |s|;
    var path := seq(n, k requires 0 <= k < n => s[n - 1 - k]);
    forall k | 0 <= k < n - 1
      ensures Joined(edges, path[k], path[k + 1])
    {
      assert Joined(edges, s[n - 2 - k], s[n - 2 - k + 1]);
    }
    assert Joins(edges, path, b, a);
  }

  lemma ConnectedMonotone(edges: set<(nat, nat)>, more: set<(nat, nat)>, a: nat, b: nat)
    requires edges <= more && Connected(edges, a, b)
    ensures Connected(more, a, b)
  {
    var s :| Joins(edges, s, a, b);
    assert Joins(more, s, a, b);
  }

  // ----- forests -----

  /** Parents stay in range and ranks rise strictly along parent links. */
  predicate Forest(p: seq<nat>, r: seq<nat>) {
    && |p| == |r|
    && forall i {:trigger p[i]} :: 0 <= i < |p| ==> p[i] < |p| && (p[i] != i ==> r[i] < r[p[i]])
  }

  function Top(r: seq<nat>): (t: nat)
    ensures forall i :: 0 <= i < |r| ==> r[i] <= t
  {
    if r == [] then 0 else Max(Top(r[..|r| - 1]), r[|r| - 1])
  }

  /** Where the parent links of i end. */
  function Root(p: seq<nat>, r: seq<nat>, i: nat): (root: nat)
    requires Forest(p, r) && i < |p|
    ensures root < |p| && p[root] == root
    ensures r[i] <= r[root] && (p[i] != i ==> r[i] < r[root])
    ensures p[i] == i <==> root == i
    decreases Top(r) - r[i]
  {
    if p[i] == i then i else Root(p, r, p[i])
  }

  function Depth(p: seq<nat>, r: seq<nat>, i: nat): nat
    requires Forest(p, r) && i < |p|
    decreases Top(r) - r[i]
  {
    if p[i] == i then 0 else 1 + Depth(p, r, p[i])
  }

  ghost function Tree(p: seq<nat>, r: seq<nat>, root: nat): set<nat>
    requires Forest(p, r)
  {
    set i: nat | i < |p| && Root(p, r, i) == root
  }

  function Pow2(n: nat): (m: nat)
    ensures m >= 1
  {
    if n == 0 then 1 else 2 * Pow2(n - 1)
  }

  lemma {:induction false} Pow2Monotone(a: nat, b: nat)
    requires a <= b
    ensures Pow2(a) <= Pow2(b)
    decreases b
  {
    if a < b {
      Pow2Monotone(a, b - 1);
    }
  }

  /** A root of rank k has at least 2^k members. */
  ghost predicate Populated(p: seq<nat>, r: seq<nat>)
    requires Forest(p, r)
  {
    forall x: nat {:trigger Tree(p, r, x)} :: x < |p| && Root(p, r, x) == x ==> |Tree(p, r, x)| >= Pow2(r[x])
  }

  /** The trees are the components of the united pairs. */
  ghost predicate Represents(p: seq<nat>, r: seq<nat>, edges: set<(nat, nat)>)
    requires Forest(p, r)
  {
    && (forall a, b :: (a, b) in edges ==> a < |p| && b < |p| && Root(p, r, a) == Root(p, r, b))
    && (forall i: nat :: i < |p| ==> Connected(edges, i, Root(p, r, i)))
  }

  lemma {:induction false} ChainKeepsRoot(p: seq<nat>, r: seq<nat>, edges: set<(nat, nat)>, path: seq<nat>)
    requires Forest(p, r) && Represents(p, r, edges) && IsChain(edges, path) && path[0] < |p|
    ensures path[|path| - 1] < |p| && Root(p, r, path[|path| - 1]) == Root(p, r, path[0])
  {
    if |path| > 1 {
      var rest := path[..|path| - 1];
      ChainKeepsRoot(p, r, edges, rest);
      assert Joined(edges, path[|path| - 2], path[|path| - 2 + 1]);
    }
  }

  /** Two elements have the same root exactly when united pairs connect them. */
  lemma RootsAreComponents(p: seq<nat>, r: seq<nat>, edges: set<(nat, nat)>, i: nat, j: nat)
    requires Forest(p, r) && Represents(p, r, edges) && i < |p| && j < |p|
    ensures Root(p, r, i) == Root(p, r, j) <==> Connected(edges, i, j)
  {
    if Root(p, r, i) == Root(p, r, j) {
      ConnectedSymmetric(edges, j, Root(p, r, j));
      ConnectedTransitive(edges, i, Root(p, r, i), j);
    }
    if Connected(edges, i, j) {
      var path :| Joins(edges, path, i, j);
      ChainKeepsRoot(p, r, edges, path);
    }
  }

  lemma {:induction false} DepthBelowRank(p: seq<nat>, r: seq<nat>, i: nat)
    requires Forest(p, r) && i < |p|
    ensures Depth(p, r, i) <= r[Root(p, r, i)] - r[i]
    decreases Top(r) - r[i]
  {
    if p[i] != i {
      DepthBelowRank(p, r, p[i]);
    }
  }

  /** The depth of find's recursion is logarithmic in the number of elements. */
  lemma DepthIsLogarithmic(p: seq<nat>, r: seq<nat>, i: nat)
    requires Forest(p, r) && Populated(p, r) && i < |p|
    ensures Pow2(Depth(p, r, i)) <= |p|
  {
    var root := Root(p, r, i);
    DepthBelowRank(p, r, i);
    Pow2Monotone(Depth(p, r, i), r[root]);
    var tree := Tree(p, r, root);
    assert Root(p, r, root) == root;
    SubsetOfIndices(tree, |p|);
  }

  // ----- path compression -----

  ghost predicate SameRoots(p: seq<nat>, z: seq<nat>, r: seq<nat>) {
    && Forest(p, r) && Forest(z, r)
    && forall i: nat {:trigger Root(z, r, i)} {:trigger Root(p, r, i)} :: i < |p| ==> Root(z, r, i) == Root(p, r, i)
  }

  lemma {:induction false} CompressedRoot(p: seq<nat>, r: seq<nat>, v: nat, i: nat)
    requires Forest(p, r) && v < |p| && i < |p|
    ensures var z := p[v := Root(p, r, v)]; Forest(z, r) && Root(z, r, i) == Root(p, r, i)
    decreases Top(r) - r[i]
  {
    if p[i] != i && i != v {
      CompressedRoot(p, r, v, p[i]);
    }
  }

  /** Pointing an element straight at its root changes nobody's root. */
  lemma CompressionKeepsRoots(p: seq<nat>, r: seq<nat>, v: nat)
    requires Forest(p, r) && v < |p|
    ensures SameRoots(p, p[v := Root(p, r, v)], r)
  {
    forall i: nat | i < |p|
      ensures Forest(p[v := Root(p, r, v)], r) && Root(p[v := Root(p, r, v)], r, i) == Root(p, r, i)
    {
      CompressedRoot(p, r, v, i);
    }
    CompressedRoot(p, r, v, v);
  }

  lemma SameRootsKeep(p: seq<nat>, z: seq<nat>, r: seq<nat>, edges: set<(nat, nat)>)
    requires SameRoots(p, z, r) && Populated(p, r) && Represents(p, r, edges)
    ensures Populated(z, r) && Represents(z, r, edges)
  {
    forall x: nat | x < |z| && Root(z, r, x) == x
      ensures |Tree(z, r, x)| >= Pow2(r[x])
    {
      assert Tree(z, r, x) == Tree(p, r, x);
    }
  }

  // ----- linking two roots -----

  /** The root that wins, and the new parents and ranks. */
  function Winner(r: seq<nat>, a: nat, b: nat): nat
    requires a < |r| && b < |r|
  {
    if r[a] < r[b] then b else a
  }

  function Loser(r: seq<nat>, a: nat, b: nat): nat
    requires a < |r| && b < |r|
  {
    if r[a] < r[b] then a else b
  }

  function LinkedRanks(r: seq<nat>, a: nat, b: nat): seq<nat>
    requires a < |r| && b < |r|
  {
    if r[a] == r[b] then r[a := r[a] + 1] else r
  }

  ghost predicate Linkable(p: seq<nat>, r: seq<nat>, a: nat, b: nat) {
    Forest(p, r) && a < |p| && b < |p| && p[a] == a && p[b] == b && a != b
  }

  lemma LinkKeepsForest(p: seq<nat>, r: seq<nat>, a: nat, b: nat)
    requires Linkable(p, r, a, b)
    ensures Forest(p[Loser(r, a, b) := Winner(r, a, b)], LinkedRanks(r, a, b))
  {
  }

  lemma {:induction false} LinkedRoot(p: seq<nat>, r: seq<nat>, a: nat, b: nat, i: nat)
    requires Linkable(p, r, a, b) && i < |p|
    ensures var z, q := p[Loser(r, a, b) := Winner(r, a, b)], LinkedRanks(r, a, b);
      Forest(z, q) && Root(z, q, i) == if Root(p, r, i) == Loser(r, a, b) then Winner(r, a, b) else Root(p, r, i)
    decreases Top(r) - r[i]
  {
    LinkKeepsForest(p, r, a, b);
    if p[i] != i {
      LinkedRoot(p, r, a, b, p[i]);
    }
  }

  lemma LinkedTrees(p: seq<nat>, r: seq<nat>, a: nat, b: nat)
    requires Linkable(p, r, a, b)
    ensures var w, l := Winner(r, a, b), Loser(r, a, b);
      var z, q := p[l := w], LinkedRanks(r, a, b);
      && Forest(z, q)
      && Tree(z, q, w) == Tree(p, r, w) + Tree(p, r, l) && Tree(p, r, w) !! Tree(p, r, l)
      && Tree(z, q, l) == {}
      && forall x: nat {:trigger Tree(z, q, x)} :: x != w && x != l ==> Tree(z, q, x) == Tree(p, r, x)
  {
    var w, l := Winner(r, a, b), Loser(r, a, b);
    var z, q := p[l := w], LinkedRanks(r, a, b);
    LinkKeepsForest(p, r, a, b);
    forall i: nat | i < |p|
      ensures Root(z, q, i) == if Root(p, r, i) == l then w else Root(p, r, i)
    {
      LinkedRoot(p, r, a, b, i);
    }
  }

  /** The winner's tree is large enough for its new rank. */
  lemma WinnerPopulated(p: seq<nat>, r: seq<nat>, a: nat, b: nat)
    requires Linkable(p, r, a, b) && Populated(p, r)
    ensures |Tree(p, r, Winner(r, a, b))| + |Tree(p, r, Loser(r, a, b))| >= Pow2(LinkedRanks(r, a, b)[Winner(r, a, b)])
  {
    assert Root(p, r, a) == a && Root(p, r, b) == b;
    assert |Tree(p, r, a)| >= Pow2(r[a]) && |Tree(p, r, b)| >= Pow2(r[b]);
  }

  lemma LinkKeepsPopulated(p: seq<nat>, r: seq<nat>, a: nat, b: nat)
    requires Linkable(p, r, a, b) && Populated(p, r)
    ensures var z, q := p[Loser(r, a, b) := Winner(r, a, b)], LinkedRanks(r, a, b);
      Forest(z, q) && Populated(z, q)
  {
    var w, l, q := Winner(r, a, b), Loser(r, a, b), LinkedRanks(r, a, b);
    var z := p[l := w];
    LinkedTrees(p, r, a, b);
    WinnerPopulated(p, r, a, b);
    var merged, winner, loser := Tree(z, q, w), Tree(p, r, w), Tree(p, r, l);
    assert |merged| == |winner| + |loser|;
    forall x: nat | x < |z| && Root(z, q, x) == x
      ensures |Tree(z, q, x)| >= Pow2(q[x])
    {
      if x != w {
        assert x != l && q[x] == r[x] && p[x] == x;
        assert |Tree(p, r, x)| >= Pow2(r[x]);
      }
    }
  }

  /** Everything a link keeps. */
  lemma LinkKeeps(p: seq<nat>, r: seq<nat>, edges: set<(nat, nat)>, left: nat, right: nat)
    requires Forest(p, r) && left < |p| && right < |p| && Populated(p, r) && Represents(p, r, edges)
    requires Root(p, r, left) != Root(p, r, right)
    ensures var a, b := Root(p, r, left), Root(p, r, right);
      var z, q := p[Loser(r, a, b) := Winner(r, a, b)], LinkedRanks(r, a, b);
      Forest(z, q) && Populated(z, q) && Represents(z, q, edges + {(left, right)})
  {
    LinkRepresents(p, r, edges, left, right);
    LinkKeepsPopulated(p, r, Root(p, r, left), Root(p, r, right));
  }

  lemma LinkKeepsConnections(p: seq<nat>, r: seq<nat>, edges: set<(nat, nat)>, left: nat, right: nat)
    requires Forest(p, r) && left < |p| && right < |p| && Represents(p, r, edges)
    ensures var more := edges + {(left, right)};
      && Connected(more, Root(p, r, left), Root(p, r, right)) && Connected(more, Root(p, r, right), Root(p, r, left))
      && forall i: nat :: i < |p| ==> Connected(more, i, Root(p, r, i))
  {
    var more, a, b := edges + {(left, right)}, Root(p, r, left), Root(p, r, right);
    forall i: nat | i < |p|
      ensures Connected(more, i, Root(p, r, i))
    {
      ConnectedMonotone(edges, more, i, Root(p, r, i));
    }
    ConnectedPair(more, left, right);
    ConnectedSymmetric(more, left, a);
    ConnectedTransitive(more, a, left, right);
    ConnectedTransitive(more, a, right, b);
    ConnectedSymmetric(more, a, b);
  }

  /** Linking the roots of a pair represents the pairs with that one added. */
  lemma LinkRepresents(p: seq<nat>, r: seq<nat>, edges: set<(nat, nat)>, left: nat, right: nat)
    requires Forest(p, r) && left < |p| && right < |p| && Represents(p, r, edges)
    requires Root(p, r, left) != Root(p, r, right)
    ensures var a, b := Root(p, r, left), Root(p, r, right);
      var z, q := p[Loser(r, a, b) := Winner(r, a, b)], LinkedRanks(r, a, b);
      Forest(z, q) && Represents(z, q, edges + {(left, right)})
  {
    var a, b := Root(p, r, left), Root(p, r, right);
    var w, l := Winner(r, a, b), Loser(r, a, b);
    var z, q := p[l := w], LinkedRanks(r, a, b);
    LinkKeepsForest(p, r, a, b);
    LinkKeepsConnections(p, r, edges, left, right);
    forall i: nat | i < |p|
      ensures Root(z, q, i) == if Root(p, r, i) == l then w else Root(p, r, i)
      ensures Connected(edges + {(left, right)}, i, Root(z, q, i))
    {
      LinkedRoot(p, r, a, b, i);
      if Root(p, r, i) == l {
        ConnectedTransitive(edges + {(left, right)}, i, l, w);
      }
    }
  }

  /** A pair whose roots already agree is represented already. */
  lemma JoinedAlready(p: seq<nat>, r: seq<nat>, edges: set<(nat, nat)>, left: nat, right: nat)
    requires Forest(p, r) && left < |p| && right < |p| && Represents(p, r, edges)
    requires Root(p, r, left) == Root(p, r, right)
    ensures Represents(p, r, edges + {(left, right)})
  {
    LinkKeepsConnections(p, r, edges, left, right);
  }

  lemma Singletons(p: seq<nat>, r: seq<nat>)
    requires |p| == |r| && forall i :: 0 <= i < |p| ==> p[i] == i && r[i] == 0
    ensures Forest(p, r) && Populated(p, r) && Represents(p, r, {})
  {
    forall i: nat | i < |p|
      ensures Connected({}, i, Root(p, r, i)) && Tree(p, r, i) == {i}
    {
      ConnectedReflexive({}, i);
    }
  }

  /** The source's UnionFind; `united` records the pairs given to Unite. */
  class UnionFind {
    const parent: array<nat>
    const rank: array<nat>
    ghost var united: set<(nat, nat)>

    ghost predicate Valid()
      reads this, parent, rank
    {
      && parent != rank
      && Forest(parent[..], rank[..])
      && Populated(parent[..], rank[..])
      && Represents(parent[..], rank[..], united)
    }

    constructor (size: nat)
      ensures Valid() && parent.Length == size && united == {}
      ensures fresh(parent) && fresh(rank)
    {
      parent := new nat[size](i => i);
      rank := new nat[size](_ => 0);
      united := {};
      new;
      Singletons(parent[..], rank[..]);
    }

    /** Returns the root and compresses the path to it; nobody's root changes. */
    method Find(value: nat) returns (root: nat)
      requires Valid() && value < parent.Length
      modifies parent
      ensures Valid()
      ensures SameRoots(old(parent[..]), parent[..], rank[..])
      ensures root == Root(parent[..], rank[..], value)
      ensures parent[value] == root
      decreases Top(rank[..]) - rank[value]
    {
      ghost var p, r := parent[..], rank[..];
      if parent[value] != value {
        var above := Find(parent[value]);
        ghost var z := parent[..];
        assert Root(z, r, value) == Root(p, r, value) == above;
        CompressionKeepsRoots(z, r, value);
        parent[value] := above;
        assert parent[..] == z[value := above];
        SameRootsKeep(z, parent[..], r, united);
      }
      root := parent[value];
    }

    /** Joins the trees of left and right: the higher rank wins, and a tie raises left's. */
    method Unite(left: nat, right: nat)
      requires Valid() && left < parent.Length && right < parent.Length
      modifies this, parent, rank
      ensures Valid()
      ensures united == old(united) + {(left, right)}
    {
      var a := Find(left);
      var b := Find(right);
      ghost var p, r := parent[..], rank[..];
      assert Root(p, r, left) == a && Root(p, r, right) == b;
      if a == b {
        JoinedAlready(p, r, united, left, right);
        united := united + {(left, right)};
        return;
      }
      LinkKeeps(p, r, united, left, right);
      Link(a, b);
      united := united + {(left, right)};
    }

    /** The three-way rank comparison. */
    method Link(a: nat, b: nat)
      requires parent != rank && a < parent.Length == rank.Length && b < rank.Length && a != b
      modifies parent, rank
      ensures parent[..] == old(parent[..][Loser(rank[..], a, b) := Winner(rank[..], a, b)])
      ensures rank[..] == old(LinkedRanks(rank[..], a, b))
    {
      if rank[a] < rank[b] {
        parent[a] := b;
      } else if rank[a] > rank[b] {
        parent[b] := a;
      } else {
        parent[b] := a;
        rank[a] := rank[a] + 1;
      }
    }
  }
}
