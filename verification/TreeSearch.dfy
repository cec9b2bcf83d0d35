/**
  The two tree searches of src/backends/pcl/pcl_registration_backend.cpp: the nearest reference point of a
  query, and the neighbourhood a covariance is estimated from. The tree reports a distance that may be
  slightly off and lists a ball in any order; the code around it makes the answers exact.
 */
module TreeSearch {
  import opened Basics
  import opened Nearest

  /** The library's tree over `size` points. kth is the last squared distance nearestKSearch reports for k
      neighbours, None when it finds fewer; ball is what radiusSearch lists, in the order of that call. */
  datatype Tree<!Q> = Tree(
    size: nat,
    distance: (Q, nat) -> real,
    kth: (Q, nat) -> Option<real>,
    ball: (nat, Q, real) -> seq<nat>)

  function DistanceFrom<Q>(distance: (Q, nat) -> real, q: Q): nat -> real {
    (c: nat) => distance(q, c)
  }

  function Distance<Q>(t: Tree<Q>, q: Q): nat -> real {
    DistanceFrom(t.distance, q)
  }

  /** The contract of radiusSearch: exactly the points of the ball, each once, in any order. */
  ghost predicate ListsBalls<Q(!new)>(t: Tree<Q>) {
    forall call: nat, q: Q, radius: real {:trigger t.ball(call, q, radius)} ::
      Distinct(t.ball(call, q, radius)) && ListsBall(Distance(t, q), t.size, radius, t.ball(call, q, radius))
  }

  /** The points whose squared distance the report may stand for. */
  ghost function Within<Q>(t: Tree<Q>, q: Q, reported: real): set<nat> {
    set c: nat | c < t.size && reported >= t.distance(q, c) * 0.999999
  }

  /** The contract of nearestKSearch: it fails only for lack of points, and the reported k-th squared distance is
      at most a millionth too small. */
  ghost predicate ReportsNearest<Q(!new)>(t: Tree<Q>) {
    && (forall q: Q, c: nat {:trigger t.distance(q, c)} :: t.distance(q, c) >= 0.0)
    && (forall q: Q, k: nat {:trigger t.kth(q, k)} ::
          && (t.kth(q, k).Some? <==> k <= t.size)
          && (t.kth(q, k).Some? ==> t.kth(q, k).value >= 0.0 && |Within(t, q, t.kth(q, k).value)| >= k))
  }

  /** Whatever the order, a call lists the same points, each once. */
  ghost predicate Stable<Q(!new)>(t: Tree<Q>) {
    forall call: nat, q: Q, radius: real {:trigger t.ball(call, q, radius)} ::
      Distinct(t.ball(call, q, radius)) && Elements(t.ball(call, q, radius)) == Elements(t.ball(0, q, radius))
  }

  lemma ListsBallsIsStable<Q(!new)>(t: Tree<Q>)
    requires ListsBalls(t)
    ensures Stable(t)
  {
    forall call: nat, q: Q, radius: real
      ensures Distinct(t.ball(call, q, radius)) && Elements(t.ball(call, q, radius)) == Elements(t.ball(0, q, radius))
    {
      assert ListsBall(Distance(t, q), t.size, radius, t.ball(call, q, radius));
      assert ListsBall(Distance(t, q), t.size, radius, t.ball(0, q, radius));
    }
  }

  // ----- the nearest point -----

  /** The nearest point within the bound, as the search computes it. */
  function NearestOf<Q>(t: Tree<Q>, root: real -> real, limit: real, call: nat, q: Q): int {
    match t.kth(q, 1)
    case None => -1
    case Some(reported) => Recheck(Distance(t, q), limit, t.ball(call, q, Radius(root, reported))).1
  }

  lemma NearestIgnoresOrder<Q(!new)>(t: Tree<Q>, root: real -> real, limit: real, call: nat, q: Q)
    requires Stable(t)
    ensures NearestOf(t, root, limit, call, q) == NearestOf(t, root, limit, 0, q)
  {
    if t.kth(q, 1).Some? {
      var radius := Radius(root, t.kth(q, 1).value);
      RecheckOrderIrrelevant(Distance(t, q), limit, t.ball(call, q, radius), t.ball(0, q, radius));
    }
  }

  /** With exact balls the search is exhaustive just when the smallest distance is beyond the bound, or within
      the radius widened from the reported one. */
  lemma SearchIsExactWhen<Q(!new)>(t: Tree<Q>, root: real -> real, limit: real, call: nat, q: Q)
    requires ListsBalls(t) && t.size > 0 && t.kth(q, 1).Some?
    ensures var radius, minimum := Radius(root, t.kth(q, 1).value), Minimum(Distance(t, q), t.size);
      NearestOf(t, root, limit, call, q) == Oracle(Distance(t, q), limit, t.size).1 <==> minimum > limit || minimum <= Times(radius, radius)
  {
    var reported := t.kth(q, 1).value;
    RecheckMatchesOracle(Distance(t, q), limit, root, reported, t.size, t.ball(call, q, Radius(root, reported)));
  }

  /** Under the contracts of the tree, the search is exhaustive search. */
  lemma SearchIsExact<Q(!new)>(t: Tree<Q>, root: real -> real, limit: real, call: nat, q: Q)
    requires IsRoot(root) && ListsBalls(t) && ReportsNearest(t)
    ensures NearestOf(t, root, limit, call, q) == Oracle(Distance(t, q), limit, t.size).1
  {
    if t.size > 0 {
      assert t.kth(q, 1).Some?;
      var reported := t.kth(q, 1).value;
      var c := Some1(Within(t, q, reported));
      var at := MinimumIsLeast(Distance(t, q), t.size);
      assert Minimum(Distance(t, q), t.size) <= Distance(t, q)(c) == t.distance(q, c);
      assert Distance(t, q)(at) == t.distance(q, at) >= 0.0;
      SlackIsCovered(root, reported, Minimum(Distance(t, q), t.size));
      SearchIsExactWhen(t, root, limit, call, q);
    } else {
      assert t.kth(q, 1).None?;
    }
  }

  lemma Some1(s: set<nat>) returns (x: nat)
    requires |s| >= 1
    ensures x in s
  {
    assert s != {};
    assert exists y :: y in s;
    x :| x in s;
  }

  /** A tree over one point at distance 1 that reports distance 0. */
  function Misreporting(): Tree<nat> {
    Tree(1, (q: nat, c: nat) => 1.0, (q: nat, k: nat) => Some(0.0),
         (call: nat, q: nat, radius: real) => SinglePoint(radius))
  }

  function SinglePoint(radius: real): seq<nat> {
    if Times(radius, radius) >= 1.0 then [0] else []
  }

  lemma SinglePointBall(dist: nat -> real, radius: real)
    requires dist(0) == 1.0
    ensures Distinct(SinglePoint(radius)) && ListsBall(dist, 1, radius, SinglePoint(radius))
  {
    if Times(radius, radius) >= 1.0 {
      assert SinglePoint(radius)[0] == 0;
    }
  }

  /** The report matters: with exact balls but this report, the search misses the point. */
  lemma MisreportIsMissed(root: real -> real, limit: real)
    requires IsRoot(root) && limit >= 1.0
    ensures ListsBalls(Misreporting())
    ensures NearestOf(Misreporting(), root, limit, 0, 0) == -1 && Oracle(Distance(Misreporting(), 0), limit, 1).1 == 0
  {
    var t := Misreporting();
    forall call: nat, q: nat, radius: real
      ensures Distinct(t.ball(call, q, radius)) && ListsBall(Distance(t, q), t.size, radius, t.ball(call, q, radius))
    {
      SinglePointBall(Distance(t, q), radius);
    }
    NoRootOfZero(root);
    assert Radius(root, 0.0) == 0.000001;
    assert SinglePoint(0.000001) == [];
  }

  lemma NoRootOfZero(root: real -> real)
    requires IsRoot(root)
    ensures root(0.0) == 0.0
  {
    NoRoot(root(0.0));
  }

  // ----- sorting the tied candidates -----

  /** Nothing later beats anything earlier. */
  ghost predicate IsRanked(dist: nat -> real, s: seq<nat>) {
    forall i, j :: 0 <= i < j < |s| ==> !Beats(dist, s[j], s[i])
  }

  function RankInsert(dist: nat -> real, s: seq<nat>, x: nat): seq<nat> {
    if s == [] || !Beats(dist, x, s[|s| - 1]) then s + [x] else RankInsert(dist, s[..|s| - 1], x) + [s[|s| - 1]]
  }

  /** std::sort by (distance, index). */
  function Ranked(dist: nat -> real, s: seq<nat>): seq<nat> {
    if s == [] then [] else RankInsert(dist, Ranked(dist, s[..|s| - 1]), s[|s| - 1])
  }

  lemma {:induction false} RankInsertKeeps(dist: nat -> real, s: seq<nat>, x: nat)
    requires IsRanked(dist, s)
    ensures IsRanked(dist, RankInsert(dist, s, x)) && multiset(RankInsert(dist, s, x)) == multiset(s) + multiset{x}
  {
    if s != [] && Beats(dist, x, s[|s| - 1]) {
      var rest, last := s[..|s| - 1], s[|s| - 1];
      RankInsertKeeps(dist, rest, x);
      assert s == rest + [last];
      RankedBefore(dist, rest, x, RankInsert(dist, rest, x), last);
      RankedPush(dist, RankInsert(dist, rest, x), last);
    } else {
      LastDecides(dist, s, x);
      RankedPush(dist, s, x);
    }
  }

  lemma RankedPush(dist: nat -> real, s: seq<nat>, x: nat)
    requires IsRanked(dist, s) && forall i :: 0 <= i < |s| ==> !Beats(dist, x, s[i])
    ensures IsRanked(dist, s + [x])
  {
  }

  lemma LastDecides(dist: nat -> real, s: seq<nat>, x: nat)
    requires IsRanked(dist, s) && (s == [] || !Beats(dist, x, s[|s| - 1]))
    ensures forall i :: 0 <= i < |s| ==> !Beats(dist, x, s[i])
  {
    forall i | 0 <= i < |s|
      ensures !Beats(dist, x, s[i])
    {
      assert i < |s| - 1 ==> !Beats(dist, s[|s| - 1], s[i]);
    }
  }

  lemma RankedBefore(dist: nat -> real, rest: seq<nat>, x: nat, r: seq<nat>, last: nat)
    requires multiset(r) == multiset(rest) + multiset{x} && !Beats(dist, last, x)
    requires forall i :: 0 <= i < |rest| ==> !Beats(dist, last, rest[i])
    ensures forall i :: 0 <= i < |r| ==> !Beats(dist, last, r[i])
  {
    forall i | 0 <= i < |r|
      ensures !Beats(dist, last, r[i])
    {
      assert r[i] in multiset(r);
      assert r[i] == x || r[i] in rest;
    }
  }

  lemma {:induction false} RankedKeeps(dist: nat -> real, s: seq<nat>)
    ensures IsRanked(dist, Ranked(dist, s)) && multiset(Ranked(dist, s)) == multiset(s)
  {
    if s != [] {
      RankedKeeps(dist, s[..|s| - 1]);
      RankInsertKeeps(dist, Ranked(dist, s[..|s| - 1]), s[|s| - 1]);
      assert s == s[..|s| - 1] + [s[|s| - 1]];
    }
  }

  /** Sorting by index. */
  function Sorted(s: seq<nat>): seq<nat> {
    Ranked((c: nat) => 0.0, s)
  }

  // ----- choosing a neighbourhood -----

  /** The k smallest tied candidates by (distance, index), then by index; None when there are fewer. */
  function Choose(dist: nat -> real, ties: seq<nat>, k: nat): (chosen: Option<seq<nat>>)
    ensures chosen.None? <==> |ties| < k
  {
    if |ties| < k then None
    else
      assert |Ranked(dist, ties)| == |ties| by { RankedKeeps(dist, ties); assert |multiset(Ranked(dist, ties))| == |multiset(ties)|; }
      Some(Sorted(Ranked(dist, ties)[..k]))
  }

  /** chosen are the k of `all` that no other beats, ascending. */
  ghost predicate IsChoice(dist: nat -> real, all: set<nat>, k: nat, chosen: seq<nat>) {
    && |chosen| == k && Ascending(chosen) && Distinct(chosen) && Elements(chosen) <= all
    && forall c, d :: c in Elements(chosen) && d in all && d !in Elements(chosen) ==> Beats(dist, c, d)
  }

  lemma SamePermutation(s: seq<nat>, t: seq<nat>)
    requires multiset(s) == multiset(t) && Distinct(s)
    ensures Distinct(t) && |s| == |t| && Elements(s) == Elements(t)
  {
    assert |multiset(s)| == |multiset(t)|;
    forall x
      ensures x in Elements(s) <==> x in Elements(t)
    {
      assert x in multiset(s) <==> x in multiset(t);
    }
    DistinctIfNoRepeats(s, t);
  }

  lemma DistinctIfNoRepeats(s: seq<nat>, t: seq<nat>)
    requires multiset(s) == multiset(t) && Distinct(s)
    ensures Distinct(t)
  {
    forall i, j | 0 <= i < j < |t|
      ensures t[i] != t[j]
    {
      if t[i] == t[j] {
        assert t == t[..i] + [t[i]] + t[i + 1..j] + [t[j]] + t[j + 1..];
        assert multiset(t)[t[i]] >= 2;
        OnceInDistinct(s, t[i]);
      }
    }
  }

  lemma {:induction false} OnceInDistinct(s: seq<nat>, x: nat)
    requires Distinct(s)
    ensures multiset(s)[x] <= 1
  {
    if s != [] {
      var n := |s| - 1;
      OnceInDistinct(s[..n], x);
      assert s == s[..n] + [s[n]];
      if s[n] == x {
        assert x !in multiset(s[..n]);
      }
    }
  }

  /** The choice from a listing is the choice from the set it lists. */
  lemma ChooseIsChoice(dist: nat -> real, ties: seq<nat>, k: nat)
    requires Distinct(ties) && k <= |ties|
    ensures IsChoice(dist, Elements(ties), k, Choose(dist, ties, k).value)
  {
    var ranked := Ranked(dist, ties);
    RankedKeeps(dist, ties);
    SamePermutation(ties, ranked);
    var front := ranked[..k];
    var chosen := Sorted(front);
    RankedKeeps((c: nat) => 0.0, front);
    SamePermutation(front, chosen);
    forall i, j | 0 <= i < j < |chosen|
      ensures chosen[i] <= chosen[j]
    {
      assert !Beats((c: nat) => 0.0, chosen[j], chosen[i]);
    }
    forall c, d | c in Elements(front) && d in Elements(ties) && d !in Elements(front)
      ensures Beats(dist, c, d)
    {
      FrontBeatsRest(dist, ranked, k, c, d);
    }
  }

  lemma FrontBeatsRest(dist: nat -> real, ranked: seq<nat>, k: nat, c: nat, d: nat)
    requires IsRanked(dist, ranked) && Distinct(ranked) && k <= |ranked|
    requires c in Elements(ranked[..k]) && d in Elements(ranked) && d !in Elements(ranked[..k])
    ensures Beats(dist, c, d)
  {
    var i :| 0 <= i < k && ranked[..k][i] == c;
    var j :| 0 <= j < |ranked| && ranked[j] == d;
    assert forall p :: 0 <= p < k ==> ranked[..k][p] == ranked[p];
    assert !Beats(dist, ranked[j], ranked[i]) && ranked[i] != ranked[j];
  }

  /** Two choices cannot each hold a point the other lacks: the two would beat each other. */
  lemma NoTwoWays(dist: nat -> real, all: set<nat>, k: nat, a: seq<nat>, b: seq<nat>)
    requires IsChoice(dist, all, k, a) && IsChoice(dist, all, k, b)
    ensures Elements(a) <= Elements(b) || Elements(b) <= Elements(a)
  {
    forall x, y | x in Elements(a) && x !in Elements(b) && y in Elements(b)
      ensures y in Elements(a)
    {
      assert y !in Elements(a) ==> Beats(dist, x, y) && Beats(dist, y, x);
    }
  }

  /** There is only one choice. */
  lemma ChoiceIsUnique(dist: nat -> real, all: set<nat>, k: nat, a: seq<nat>, b: seq<nat>)
    requires IsChoice(dist, all, k, a) && IsChoice(dist, all, k, b)
    ensures a == b
  {
    DistinctSize(a);
    DistinctSize(b);
    if Elements(a) <= Elements(b) {
      SubsetOfSameSize(Elements(a), Elements(b));
      AscendingIsUnique(a, b);
    } else if Elements(b) <= Elements(a) {
      SubsetOfSameSize(Elements(b), Elements(a));
    } else {
      NoTwoWays(dist, all, k, a, b);
    }
  }

  /** Two listings of the same points, each once, lead to the same choice, or both to none. */
  lemma ChooseIgnoresOrder(dist: nat -> real, s: seq<nat>, t: seq<nat>, k: nat)
    requires Distinct(s) && Distinct(t) && Elements(s) == Elements(t)
    ensures Choose(dist, s, k) == Choose(dist, t, k)
  {
    DistinctSize(s);
    DistinctSize(t);
    if k <= |s| {
      ChooseIsChoice(dist, s, k);
      ChooseIsChoice(dist, t, k);
      ChoiceIsUnique(dist, Elements(s), k, Choose(dist, s, k).value, Choose(dist, t, k).value);
    }
  }

  /** The neighbourhood of a query, as the covariance estimate computes it. */
  function NeighborhoodOf<Q>(t: Tree<Q>, root: real -> real, call: nat, q: Q, k: nat): Option<seq<nat>> {
    match t.kth(q, k)
    case None => None
    case Some(reported) => Choose(Distance(t, q), t.ball(call, q, Radius(root, reported)), k)
  }

  lemma NeighborhoodIgnoresOrder<Q(!new)>(t: Tree<Q>, root: real -> real, call: nat, q: Q, k: nat)
    requires Stable(t)
    ensures NeighborhoodOf(t, root, call, q, k) == NeighborhoodOf(t, root, 0, q, k)
  {
    if t.kth(q, k).Some? {
      var radius := Radius(root, t.kth(q, k).value);
      ChooseIgnoresOrder(Distance(t, q), t.ball(call, q, radius), t.ball(0, q, radius), k);
    }
  }

  /** The points of a ball. */
  ghost function BallOf<Q>(t: Tree<Q>, q: Q, radius: real): set<nat> {
    set c: nat | c < t.size && t.distance(q, c) <= Times(radius, radius)
  }

  /** With exact balls, a neighbourhood fails exactly when the tree reports too few neighbours or the widened ball
      holds fewer than k points. */
  lemma NeighborhoodFails<Q(!new)>(t: Tree<Q>, root: real -> real, call: nat, q: Q, k: nat)
    requires ListsBalls(t)
    ensures NeighborhoodOf(t, root, call, q, k).None? <==>
      t.kth(q, k).None? || |BallOf(t, q, Radius(root, t.kth(q, k).value))| < k
  {
    if t.kth(q, k).Some? {
      var radius := Radius(root, t.kth(q, k).value);
      var ties := t.ball(call, q, radius);
      DistinctSize(ties);
      assert ListsBall(Distance(t, q), t.size, radius, ties);
      assert Elements(ties) == BallOf(t, q, radius);
    }
  }

  /** Under the contracts of the tree, the neighbourhood is that of the k nearest points among all, ties going to
      smaller indices, and it exists exactly when there are k points. */
  lemma NeighborhoodIsExact<Q(!new)>(t: Tree<Q>, root: real -> real, call: nat, q: Q, k: nat)
    requires IsRoot(root) && ListsBalls(t) && ReportsNearest(t)
    ensures var n := NeighborhoodOf(t, root, call, q, k);
      (n.Some? <==> k <= t.size) && (n.Some? ==> IsChoice(Distance(t, q), Ids(t.size), k, n.value))
  {
    NeighborhoodFails(t, root, call, q, k);
    assert t.kth(q, k).Some? <==> k <= t.size;
    if k <= t.size {
      var reported := t.kth(q, k).value;
      var radius := Radius(root, reported);
      WithinIsInBall(t, root, q, reported);
      SubsetSize(Within(t, q, reported), BallOf(t, q, radius));
      var ties := t.ball(call, q, radius);
      DistinctSize(ties);
      assert ListsBall(Distance(t, q), t.size, radius, ties);
      assert Elements(ties) == BallOf(t, q, radius);
      ChooseIsChoice(Distance(t, q), ties, k);
    }
  }

  lemma WithinIsInBall<Q(!new)>(t: Tree<Q>, root: real -> real, q: Q, reported: real)
    requires IsRoot(root) && ReportsNearest(t) && reported >= 0.0
    ensures Within(t, q, reported) <= BallOf(t, q, Radius(root, reported))
  {
    forall c | c in Within(t, q, reported)
      ensures c in BallOf(t, q, Radius(root, reported))
    {
      SlackIsCovered(root, reported, t.distance(q, c));
    }
  }

  lemma SubsetSize(s: set<nat>, t: set<nat>)
    requires s <= t
    ensures |s| <= |t|
  {
    assert t == s + (t - s);
  }

  // ----- one worker's queries -----

  /** The buffers a worker keeps from one query to the next. */
  class QueryScratch {
    var indices: seq<nat>
    var distances: seq<real>
    var ties: seq<nat>

    /** Nothing is known of what earlier queries left. */
    constructor (indices: seq<nat>, distances: seq<real>, ties: seq<nat>)
    {
      this.indices, this.distances, this.ties := indices, distances, ties;
    }

    /** nearestKSearch: on success the last distance is the reported one. */
    method NearestKSearch<Q>(t: Tree<Q>, q: Q, k: nat) returns (found: bool)
      modifies this`indices, this`distances
      ensures found <==> t.kth(q, k).Some?
      ensures found ==> distances != [] && distances[|distances| - 1] == t.kth(q, k).value
    {
      var reported := t.kth(q, k);
      found := reported.Some?;
      if found {
        indices, distances := *, *;
        distances := distances + [reported.value];
      }
    }

    method RadiusSearch<Q>(t: Tree<Q>, call: nat, q: Q, radius: real)
      modifies this`ties
      ensures ties == t.ball(call, q, radius)
    {
      ties := t.ball(call, q, radius);
    }

    /** The body of the search loop: its answer does not depend on what the buffers held. */
    method QueryNearest<Q>(t: Tree<Q>, root: real -> real, limit: real, call: nat, q: Q) returns (result: int)
      modifies this
      ensures result == NearestOf(t, root, limit, call, q)
    {
      var found := NearestKSearch(t, q, 1);
      if !found {
        return -1;
      }
      RadiusSearch(t, call, q, Radius(root, distances[|distances| - 1]));
      result := RecheckLoop(Distance(t, q), limit, ties);
    }

    /** std::sort of the ties, in place. */
    method SortTies(dist: nat -> real)
      modifies this`ties
      ensures ties == Ranked(dist, old(ties))
    {
      var sorted: seq<nat> := [];
      for i := 0 to |ties|
        invariant ties == old(ties) && sorted == Ranked(dist, ties[..i])
      {
        assert ties[..i + 1][..i] == ties[..i];
        sorted := InsertRanked(dist, sorted, ties[i]);
      }
      assert ties[..|ties|] == ties;
      ties := sorted;
    }

    /** The body of the covariance loop up to its eigensolver. */
    method QueryNeighborhood<Q>(t: Tree<Q>, root: real -> real, call: nat, q: Q, k: nat) returns (r: Option<seq<nat>>)
      modifies this
      ensures r == NeighborhoodOf(t, root, call, q, k)
    {
      var found := NearestKSearch(t, q, k);
      if !found {
        return None;
      }
      RadiusSearch(t, call, q, Radius(root, distances[|distances| - 1]));
      ghost var listed := ties;
      SortTies(Distance(t, q));
      RankedKeeps(Distance(t, q), listed);
      assert |multiset(ties)| == |multiset(listed)|;
      if |ties| < k {
        return None;
      }
      ties := ties[..k];
      SortTies((c: nat) => 0.0);
      indices := ties;
      r := Some(indices);
    }
  }

  /** One insertion of the sort, from the back. */
  method InsertRanked(dist: nat -> real, s: seq<nat>, x: nat) returns (r: seq<nat>)
    ensures r == RankInsert(dist, s, x)
  {
    var i: nat := |s|;
    assert s[..i] == s && s[i..] == [];
    while i > 0 && Beats(dist, x, s[i - 1])
      invariant i <= |s| && RankInsert(dist, s, x) == RankInsert(dist, s[..i], x) + s[i..]
    {
      assert s[..i][..i - 1] == s[..i - 1];
      assert s[i - 1..] == [s[i - 1]] + s[i..];
      i := i - 1;
    }
    r := s[..i] + [x] + s[i..];
  }
}
