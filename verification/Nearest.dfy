/**
  Exact nearest-neighbour answers: the smallest squared distance within an inclusive bound, ties
  going to the smallest index, and -1 when nothing is within the bound.
 */
module Nearest {
  import opened Basics

  /** Candidate a beats candidate b. */
  predicate Beats(dist: nat -> real, a: nat, b: nat) {
    dist(a) < dist(b) || (dist(a) == dist(b) && a < b)
  }

  ghost predicate IsNearest(dist: nat -> real, limit: real, candidates: set<nat>, r: int) {
    if r < 0 then
      r == -1 && forall c :: c in candidates ==> dist(c) > limit
    else
      r in candidates && dist(r) <= limit && forall c :: c in candidates ==> !Beats(dist, c, r)
  }

  lemma NearestIsUnique(dist: nat -> real, limit: real, candidates: set<nat>, r1: int, r2: int)
    requires IsNearest(dist, limit, candidates, r1) && IsNearest(dist, limit, candidates, r2)
    ensures r1 == r2
  {
    if r1 >= 0 && r2 >= 0 {
      assert !Beats(dist, r1, r2) && !Beats(dist, r2, r1);
    }
  }

  /** The CPU search's recheck loop over the tie candidates: (best, result). */
  function Recheck(dist: nat -> real, limit: real, ties: seq<nat>): (real, int) {
    if ties == [] then (limit, -1)
    else
      var (best, r) := Recheck(dist, limit, ties[..|ties| - 1]);
      var c := ties[|ties| - 1];
      if dist(c) < best || (dist(c) == best && (r < 0 || c < r)) then (dist(c), c) else (best, r)
  }

  /** Whatever the order of the candidates, and however often each occurs, the recheck finds the
      nearest of them. */
  lemma {:induction false} RecheckIsNearest(dist: nat -> real, limit: real, ties: seq<nat>)
    ensures IsNearest(dist, limit, Elements(ties), Recheck(dist, limit, ties).1)
    ensures Recheck(dist, limit, ties).0 ==
      if Recheck(dist, limit, ties).1 < 0 then limit else dist(Recheck(dist, limit, ties).1)
  {
    if ties != [] {
      var rest := ties[..|ties| - 1];
      RecheckIsNearest(dist, limit, rest);
      assert Elements(ties) == Elements(rest) + {ties[|ties| - 1]};
    }
  }

  /** The order in which the library lists the candidates does not matter. */
  lemma RecheckOrderIrrelevant(dist: nat -> real, limit: real, ties1: seq<nat>, ties2: seq<nat>)
    requires Elements(ties1) == Elements(ties2)
    ensures Recheck(dist, limit, ties1) == Recheck(dist, limit, ties2)
  {
    RecheckIsNearest(dist, limit, ties1);
    RecheckIsNearest(dist, limit, ties2);
    NearestIsUnique(dist, limit, Elements(ties1), Recheck(dist, limit, ties1).1, Recheck(dist, limit, ties2).1);
  }

  method RecheckLoop(dist: nat -> real, limit: real, ties: seq<nat>) returns (result: int)
    ensures result == Recheck(dist, limit, ties).1
  {
    var best := limit;
    result := -1;
    for i := 0 to |ties|
      invariant (best, result) == Recheck(dist, limit, ties[..i])
    {
      assert ties[..i + 1][..i] == ties[..i];
      var d := dist(ties[i]);
      if d < best || (d == best && (result < 0 || ties[i] < result)) {
        best, result := d, ties[i];
      }
    }
    assert ties[..|ties|] == ties;
  }

  /** Rechecking the points of a ball of squared radius `reach` agrees with rechecking all points
      exactly when no point is within the bound or the nearest one is in the ball. */
  lemma RecheckIsExhaustive(dist: nat -> real, limit: real, reach: real, all: set<nat>, ties: seq<nat>, exhaustive: int)
    requires forall c :: c in Elements(ties) <==> c in all && dist(c) <= reach
    requires IsNearest(dist, limit, all, exhaustive)
    ensures Recheck(dist, limit, ties).1 == exhaustive <==> exhaustive < 0 || dist(exhaustive) <= reach
  {
    RecheckIsNearest(dist, limit, ties);
    var r := Recheck(dist, limit, ties).1;
    if exhaustive < 0 || dist(exhaustive) <= reach {
      assert IsNearest(dist, limit, Elements(ties), exhaustive);
      NearestIsUnique(dist, limit, Elements(ties), r, exhaustive);
    }
  }

  // ----- exhaustive search -----

  /** The exhaustive oracle: all ids in ascending order, the first of the closest ones kept. */
  function Oracle(dist: nat -> real, limit: real, n: nat): (real, int) {
    if n == 0 then (limit, -1)
    else
      var (best, r) := Oracle(dist, limit, n - 1);
      if dist(n - 1) < best || (dist(n - 1) == best && r < 0) then (dist(n - 1), n - 1) else (best, r)
  }

  ghost function Ids(n: nat): (ids: set<nat>)
    ensures forall c: nat :: c in ids <==> c < n
  {
    if n == 0 then {} else Ids(n - 1) + {n - 1}
  }

  lemma {:induction false} OracleIsNearest(dist: nat -> real, limit: real, n: nat)
    ensures IsNearest(dist, limit, Ids(n), Oracle(dist, limit, n).1)
    ensures Oracle(dist, limit, n).0 ==
      if Oracle(dist, limit, n).1 < 0 then limit else dist(Oracle(dist, limit, n).1)
  {
    if n > 0 {
      OracleIsNearest(dist, limit, n - 1);
      assert Ids(n) == Ids(n - 1) + {n - 1};
    }
  }

  /** Any exact answer over all ids is the oracle's. */
  lemma NearestIsOracle(dist: nat -> real, limit: real, n: nat, r: int)
    requires IsNearest(dist, limit, Ids(n), r)
    ensures r == Oracle(dist, limit, n).1
  {
    OracleIsNearest(dist, limit, n);
    NearestIsUnique(dist, limit, Ids(n), r, Oracle(dist, limit, n).1);
  }

  /** The smallest of the first n squared distances. */
  function Minimum(dist: nat -> real, n: nat): real
    requires n > 0
  {
    if n == 1 then dist(0)
    else
      var m := Minimum(dist, n - 1);
      if dist(n - 1) < m then dist(n - 1) else m
  }

  lemma {:induction false} MinimumIsLeast(dist: nat -> real, n: nat) returns (at: nat)
    requires n > 0
    ensures forall c: nat :: c < n ==> Minimum(dist, n) <= dist(c)
    ensures at < n && dist(at) == Minimum(dist, n)
  {
    at := 0;
    if n > 1 {
      at := MinimumIsLeast(dist, n - 1);
      if dist(n - 1) < Minimum(dist, n - 1) {
        at := n - 1;
      }
    }
  }

  lemma OracleIsMinimum(dist: nat -> real, limit: real, n: nat)
    requires n > 0
    ensures var r := Oracle(dist, limit, n).1;
      (r < 0 <==> Minimum(dist, n) > limit) && (r >= 0 ==> dist(r) == Minimum(dist, n))
  {
    OracleIsNearest(dist, limit, n);
    var at := MinimumIsLeast(dist, n);
    var r := Oracle(dist, limit, n).1;
    assert at in Ids(n);
    if r >= 0 {
      assert Minimum(dist, n) <= dist(r) && !Beats(dist, at, r);
    }
  }

  // ----- the widened ball -----

  /** The radius searched again around a point whose reported squared distance is given. */
  function Radius(root: real -> real, reported: real): real {
    root(reported) * 1.000001 + 0.000001
  }

  /** The listed points are those of the ball. */
  ghost predicate ListsBall(dist: nat -> real, n: nat, radius: real, ties: seq<nat>) {
    forall c: nat :: c in Elements(ties) <==> c < n && dist(c) <= Times(radius, radius)
  }

  /** The CPU search agrees with the exhaustive oracle exactly when no point is within the bound, or the
      reported distance widens far enough to reach the smallest one. */
  lemma RecheckMatchesOracle(dist: nat -> real, limit: real, root: real -> real, reported: real, n: nat, ties: seq<nat>)
    requires n > 0 && ListsBall(dist, n, Radius(root, reported), ties)
    ensures Recheck(dist, limit, ties).1 == Oracle(dist, limit, n).1 <==>
      Minimum(dist, n) > limit || Minimum(dist, n) <= Times(Radius(root, reported), Radius(root, reported))
  {
    var reach := Times(Radius(root, reported), Radius(root, reported));
    OracleIsNearest(dist, limit, n);
    OracleIsMinimum(dist, limit, n);
    RecheckIsExhaustive(dist, limit, reach, Ids(n), ties, Oracle(dist, limit, n).1);
  }

  lemma WidenedReals(r: real, d: real, c: real)
    requires r >= 0.0 && r * r == d && c >= 0.0 && d >= c * 0.999999
    ensures c <= (r * 1.000001 + 0.000001) * (r * 1.000001 + 0.000001)
  {
    assert (r * 1.000001 + 0.000001) * (r * 1.000001 + 0.000001)
        == d * 1.000002000001 + r * 0.000002000002 + 0.000000000001;
  }

  lemma SquareOrder(a: real, b: real)
    requires a >= 0.0 && b >= 0.0
    ensures a * a <= b * b <==> a <= b
  {
    var d := b - a;
    assert b * b - a * a == d * (b + a);
    if d > 0.0 {
      assert d * (b + a) >= 0.0;
    } else if d < 0.0 {
      assert d * (b + a) < 0.0;
    }
  }

  /** The ball reaches a point exactly when its distance exceeds the reported one by at most a millionth of that and a
      millionth more. */
  lemma RadiusMeans(root: real -> real, reported: real, exact: real)
    requires IsRoot(root) && reported >= 0.0 && exact >= 0.0
    ensures exact <= Times(Radius(root, reported), Radius(root, reported)) <==>
      root(exact) - root(reported) <= 0.000001 * (root(reported) + 1.0)
  {
    SquareOrder(root(exact), Radius(root, reported));
  }

  /** A report that is at most a millionth too small is widened past the true distance. */
  lemma SlackIsCovered(root: real -> real, reported: real, exact: real)
    requires IsRoot(root) && reported >= 0.0 && exact >= 0.0 && reported >= exact * 0.999999
    ensures exact <= Times(Radius(root, reported), Radius(root, reported))
  {
    WidenedReals(root(reported), reported, exact);
  }

  // ----- the tiled kernel -----

  const TILE: nat := 128

  function DistancesTo<P, Q>(distance: (Q, P) -> real, reference: seq<P>, query: Q): nat -> real {
    (c: nat) => if c < |reference| then distance(query, reference[c]) else 0.0
  }

  /** Each thread of the block loads one point; the last tile leaves the rest of the shared array stale. */
  method LoadTile<P>(reference: seq<P>, offset: nat, tile: array<P>)
    requires tile.Length == TILE
    modifies tile
    ensures forall t :: 0 <= t < TILE && offset + t < |reference| ==> tile[t] == reference[offset + t]
  {
    for thread := 0 to TILE
      invariant forall t :: 0 <= t < thread && offset + t < |reference| ==> tile[t] == reference[offset + t]
    {
      if offset + thread < |reference| {
        tile[thread] := reference[offset + thread];
      }
    }
  }

  /** One thread's pass over the loaded points. */
  method ScanTile<P, Q>(distance: (Q, P) -> real, ghost limit: real, ghost reference: seq<P>, offset: nat, count: nat,
                        tile: array<P>, query: Q, best: real, result: int)
    returns (best': real, result': int)
    requires tile.Length == TILE && count <= TILE && offset + count <= |reference|
    requires forall t :: 0 <= t < count ==> tile[t] == reference[offset + t]
    requires (best, result) == Oracle(DistancesTo(distance, reference, query), limit, offset)
    ensures (best', result') == Oracle(DistancesTo(distance, reference, query), limit, offset + count)
  {
    best', result' := best, result;
    for index := 0 to count
      invariant (best', result') == Oracle(DistancesTo(distance, reference, query), limit, offset + index)
    {
      var d := distance(query, tile[index]);
      if d < best' || (d == best' && result' < 0) {
        best', result' := d, offset + index;
      }
    }
  }

  /** One block of the tiled exhaustive kernel, at most one query a thread. The barriers separate the loads of a
      tile from the passes over it, and within a pass each thread writes its own answer only. */
  method TiledNearest<P, Q>(distance: (Q, P) -> real, limit: real, reference: seq<P>, queries: seq<Q>, tile: array<P>)
    returns (indices: seq<int>)
    requires tile.Length == TILE && |queries| <= TILE
    modifies tile
    ensures |indices| == |queries|
    ensures forall i :: 0 <= i < |queries| ==>
      indices[i] == Oracle(DistancesTo(distance, reference, queries[i]), limit, |reference|).1
  {
    var best := seq(|queries|, _ => limit);
    indices := seq(|queries|, _ => -1);
    var offset := 0;
    while offset < |reference|
      invariant |best| == |indices| == |queries|
      invariant forall i :: 0 <= i < |queries| ==>
        (best[i], indices[i]) == Oracle(DistancesTo(distance, reference, queries[i]), limit, Min(offset, |reference|))
    {
      LoadTile(reference, offset, tile);
      var count := Min(|reference| - offset, TILE);
      for i := 0 to |queries|
        invariant |best| == |indices| == |queries|
        invariant forall t :: 0 <= t < count ==> tile[t] == reference[offset + t]
        invariant forall j :: 0 <= j < |queries| ==>
          (best[j], indices[j]) == Oracle(DistancesTo(distance, reference, queries[j]), limit, if j < i then offset + count else offset)
      {
        var b, r := ScanTile(distance, limit, reference, offset, count, tile, queries[i], best[i], indices[i]);
        best, indices := best[i := b], indices[i := r];
      }
      offset := offset + TILE;
    }
  }
}
