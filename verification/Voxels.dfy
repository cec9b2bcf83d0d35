/**
  Voxel sampling as in src/preprocess/voxel_sampling.cpp, over exact reals: valid points are gathered
  into an ordered map of voxels, and each voxel becomes its centroid with the list of its sources.
 */
module Voxels {
  import opened Basics
  import opened Surfaces
  import opened RigidMotion

  const KEY_LIMIT: int := 0x8000_0000_0000_0000

  datatype Key = Key(x: int, y: int, z: int)

  /** The lexicographic order of the map. */
  predicate Before(a: Key, b: Key) {
    a.x < b.x || (a.x == b.x && (a.y < b.y || (a.y == b.y && a.z < b.z)))
  }

  function Cell(coordinate: real, size: real): int
    requires size > 0.0
  {
    (coordinate / size).Floor
  }

  predicate KeyFits(k: Key) {
    -KEY_LIMIT <= k.x < KEY_LIMIT && -KEY_LIMIT <= k.y < KEY_LIMIT && -KEY_LIMIT <= k.z < KEY_LIMIT
  }

  function KeyOf(p: Vector, size: real): Key
    requires size > 0.0
  {
    Key(Cell(p.x, size), Cell(p.y, size), Cell(p.z, size))
  }

  // ----- the map -----

  /** A voxel with what has been accumulated in it. */
  datatype Entry = Entry(key: Key, pointSum: Vector, normalSum: Vector, sources: seq<nat>)

  function Sum2(a: Vector, b: Vector): Vector {
    Vector(a.x + b.x, a.y + b.y, a.z + b.z)
  }

  /** voxels[key] and the additions to it. */
  function Add(entries: seq<Entry>, key: Key, p: Vector, n: Vector, index: nat): seq<Entry> {
    if entries == [] || Before(key, entries[0].key) then [Entry(key, p, n, [index])] + entries
    else if entries[0].key == key then
      [Entry(key, Sum2(entries[0].pointSum, p), Sum2(entries[0].normalSum, n), entries[0].sources + [index])] + entries[1..]
    else [entries[0]] + Add(entries[1..], key, p, n, index)
  }

  predicate Ordered(entries: seq<Entry>) {
    forall i, j :: 0 <= i < j < |entries| ==> Before(entries[i].key, entries[j].key)
  }

  function Lookup(entries: seq<Entry>, key: Key): Option<Entry> {
    if entries == [] then None else if entries[0].key == key then Some(entries[0]) else Lookup(entries[1..], key)
  }

  lemma {:induction false} LookupAt(entries: seq<Entry>, i: nat)
    requires Ordered(entries) && i < |entries|
    ensures Lookup(entries, entries[i].key) == Some(entries[i])
  {
    if i > 0 {
      LookupAt(entries[1..], i - 1);
    }
  }

  lemma {:induction false} LookupFound(entries: seq<Entry>, key: Key) returns (i: nat)
    requires Lookup(entries, key).Some?
    ensures i < |entries| && entries[i].key == key && Lookup(entries, key) == Some(entries[i])
  {
    if entries[0].key == key {
      i := 0;
    } else {
      var j := LookupFound(entries[1..], key);
      i := j + 1;
    }
  }

  lemma {:induction false} AddKeys(entries: seq<Entry>, key: Key, p: Vector, n: Vector, index: nat, e: Entry)
    requires e in Add(entries, key, p, n, index)
    ensures e.key == key || e in entries
  {
    if entries == [] || Before(key, entries[0].key) {
    } else if entries[0].key == key {
      assert e != Add(entries, key, p, n, index)[0] ==> e in entries[1..];
    } else if e != entries[0] {
      AddKeys(entries[1..], key, p, n, index, e);
    }
  }

  lemma {:induction false} AddOrdered(entries: seq<Entry>, key: Key, p: Vector, n: Vector, index: nat)
    requires Ordered(entries)
    ensures Ordered(Add(entries, key, p, n, index))
  {
    if entries != [] && !Before(key, entries[0].key) && entries[0].key != key {
      var rest := Add(entries[1..], key, p, n, index);
      AddOrdered(entries[1..], key, p, n, index);
      forall j | 0 <= j < |rest|
        ensures Before(entries[0].key, rest[j].key)
      {
        AddKeys(entries[1..], key, p, n, index, rest[j]);
      }
    }
  }

  /** What a voxel holds after one more point. */
  function Grown(before: Option<Entry>, key: Key, p: Vector, n: Vector, index: nat): Entry {
    match before
    case None => Entry(key, p, n, [index])
    case Some(e) => Entry(key, Sum2(e.pointSum, p), Sum2(e.normalSum, n), e.sources + [index])
  }

  lemma {:induction false} NotThere(entries: seq<Entry>, key: Key)
    requires Ordered(entries) && (entries != [] ==> Before(key, entries[0].key))
    ensures Lookup(entries, key) == None
  {
    if entries != [] {
      NotThere(entries[1..], key);
    }
  }

  lemma {:induction false} AddLookup(entries: seq<Entry>, key: Key, p: Vector, n: Vector, index: nat, q: Key)
    requires Ordered(entries)
    ensures Lookup(Add(entries, key, p, n, index), q) ==
      if q == key then Some(Grown(Lookup(entries, key), key, p, n, index)) else Lookup(entries, q)
  {
    var added := Add(entries, key, p, n, index);
    if entries == [] || Before(key, entries[0].key) {
      NotThere(entries, key);
      assert added[1..] == entries;
    } else if entries[0].key == key {
      assert added[1..] == entries[1..];
    } else {
      assert added[1..] == Add(entries[1..], key, p, n, index);
      AddLookup(entries[1..], key, p, n, index, q);
    }
  }

  // ----- gathering -----

  const ZERO := Vector(0.0, 0.0, 0.0)

  /** Not masked out. */
  predicate Kept(s: Surface<Vector>, index: nat) {
    index < |s.points| && (s.valid == [] || (index < |s.valid| && s.valid[index] != 0))
  }

  function PointAt(s: Surface<Vector>, index: nat): Vector {
    if index < |s.points| then s.points[index] else ZERO
  }

  function NormalAt(s: Surface<Vector>, index: nat): Vector {
    if index < |s.normals| then s.normals[index] else ZERO
  }

  /** The map after the first n logical points. */
  function Gathered(s: Surface<Vector>, size: real, n: nat): seq<Entry>
    requires size > 0.0
  {
    if n == 0 then []
    else
      var rest, at := Gathered(s, size, n - 1), StorageIndex(s.grid, n - 1);
      if Kept(s, at) then Add(rest, KeyOf(PointAt(s, at), size), PointAt(s, at), NormalAt(s, at), at) else rest
  }

  /** The storage indices of the chosen ones among the first n logical points, in order. */
  function Select(grid: Option<Grid>, chosen: nat -> bool, n: nat): seq<nat> {
    if n == 0 then []
    else
      var rest, at := Select(grid, chosen, n - 1), StorageIndex(grid, n - 1);
      if chosen(at) then rest + [at] else rest
  }

  function InVoxel(s: Surface<Vector>, size: real, key: Key): nat -> bool
    requires size > 0.0
  {
    (at: nat) => size > 0.0 && Kept(s, at) && KeyOf(PointAt(s, at), size) == key
  }

  /** The valid logical points of a voxel, in order. */
  function Members(s: Surface<Vector>, size: real, key: Key, n: nat): seq<nat>
    requires size > 0.0
  {
    Select(s.grid, InVoxel(s, size, key), n)
  }

  function PointSum(s: Surface<Vector>, m: seq<nat>): Vector {
    if m == [] then ZERO else Sum2(PointSum(s, m[..|m| - 1]), PointAt(s, m[|m| - 1]))
  }

  function NormalSum(s: Surface<Vector>, m: seq<nat>): Vector {
    if m == [] then ZERO else Sum2(NormalSum(s, m[..|m| - 1]), NormalAt(s, m[|m| - 1]))
  }

  /** The entry of a voxel with these members. */
  function EntryOf(s: Surface<Vector>, key: Key, m: seq<nat>): Option<Entry> {
    if m == [] then None else Some(Entry(key, PointSum(s, m), NormalSum(s, m), m))
  }

  /** One coordinate of the vectors at some places. */
  function CoordinateAt(vectors: seq<Vector>, axis: nat): nat -> real {
    (at: nat) => if at < |vectors| then Component(vectors[at], axis) else 0.0
  }

  /** The vectors at some places, added up. */
  function SumAt(vectors: seq<Vector>, m: seq<nat>): Vector {
    Vector(Total(Map(CoordinateAt(vectors, 0), m)), Total(Map(CoordinateAt(vectors, 1), m)), Total(Map(CoordinateAt(vectors, 2), m)))
  }

  lemma {:induction false} SumsMean(s: Surface<Vector>, m: seq<nat>)
    ensures PointSum(s, m) == SumAt(s.points, m) && NormalSum(s, m) == SumAt(s.normals, m)
  {
    if m != [] {
      var rest := m[..|m| - 1];
      SumsMean(s, rest);
      SumAtLast(s.points, rest, m[|m| - 1]);
      SumAtLast(s.normals, rest, m[|m| - 1]);
      assert m == rest + [m[|m| - 1]];
    }
  }

  lemma SumAtLast(vectors: seq<Vector>, m: seq<nat>, at: nat)
    ensures SumAt(vectors, m + [at]) == Sum2(SumAt(vectors, m), if at < |vectors| then vectors[at] else ZERO)
  {
    TotalLast(CoordinateAt(vectors, 0), m, at);
    TotalLast(CoordinateAt(vectors, 1), m, at);
    TotalLast(CoordinateAt(vectors, 2), m, at);
  }

  lemma TotalLast(f: nat -> real, m: seq<nat>, at: nat)
    ensures Total(Map(f, m + [at])) == Total(Map(f, m)) + f(at)
  {
    assert Map(f, m + [at]) == Map(f, m) + [f(at)];
    TotalAdds(Map(f, m), [f(at)], f(at));
  }

  lemma GrownIsNext(s: Surface<Vector>, key: Key, m: seq<nat>, at: nat)
    ensures Some(Grown(EntryOf(s, key, m), key, PointAt(s, at), NormalAt(s, at), at)) == EntryOf(s, key, m + [at])
  {
    assert (m + [at])[..|m|] == m;
  }

  /** The map holds exactly the nonempty voxels, in order, each with its members and their sums. */
  lemma {:induction false} GatheredMeans(s: Surface<Vector>, size: real, n: nat, q: Key)
    requires size > 0.0
    ensures Ordered(Gathered(s, size, n)) && Lookup(Gathered(s, size, n), q) == EntryOf(s, q, Members(s, size, q, n))
  {
    if n > 0 {
      var at := StorageIndex(s.grid, n - 1);
      GatheredMeans(s, size, n - 1, q);
      assert InVoxel(s, size, q)(at) <==> Kept(s, at) && KeyOf(PointAt(s, at), size) == q;
      if Kept(s, at) {
        var p, v, rest := PointAt(s, at), NormalAt(s, at), Gathered(s, size, n - 1);
        var key := KeyOf(p, size);
        AddOrdered(rest, key, p, v, at);
        AddLookup(rest, key, p, v, at, q);
        if q == key {
          GrownIsNext(s, key, Members(s, size, key, n - 1), at);
        }
      }
    }
  }

  /** One voxel of the map. */
  lemma EntryMeans(s: Surface<Vector>, size: real, n: nat, i: nat)
    requires size > 0.0 && i < |Gathered(s, size, n)|
    ensures var e := Gathered(s, size, n)[i];
      e.sources != [] && e == Entry(e.key, PointSum(s, e.sources), NormalSum(s, e.sources), Members(s, size, e.key, n))
  {
    var entries := Gathered(s, size, n);
    GatheredMeans(s, size, n, entries[i].key);
    LookupAt(entries, i);
  }

  // ----- members -----

  predicate Strictly(m: seq<nat>) {
    forall i, j :: 0 <= i < j < |m| ==> m[i] < m[j]
  }

  /** The storage index of one of the first n logical points. */
  ghost predicate AmongFirst(grid: Option<Grid>, n: nat, x: nat) {
    exists k: nat :: k < n && StorageIndex(grid, k) == x
  }

  lemma {:induction false} SelectMeans(grid: Option<Grid>, chosen: nat -> bool, n: nat, x: nat)
    ensures x in Select(grid, chosen, n) <==> AmongFirst(grid, n, x) && chosen(x)
  {
    if n > 0 {
      SelectMeans(grid, chosen, n - 1, x);
      assert AmongFirst(grid, n, x) <==> AmongFirst(grid, n - 1, x) || StorageIndex(grid, n - 1) == x;
    }
  }

  lemma {:induction false} SelectAscends(storage: nat, grid: Option<Grid>, chosen: nat -> bool, n: nat)
    requires FitsGrid(storage, grid) && n <= LogicalCount(storage, grid)
    ensures Strictly(Select(grid, chosen, n))
    ensures forall i :: 0 <= i < |Select(grid, chosen, n)| ==> n > 0 && Select(grid, chosen, n)[i] <= StorageIndex(grid, n - 1)
  {
    if n > 0 {
      SelectAscends(storage, grid, chosen, n - 1);
      if n > 1 {
        StorageIncreasing(storage, grid, n - 2, n - 1);
      }
    }
  }

  // ----- compressed lists -----

  function Sources(entries: seq<Entry>): seq<nat> {
    if entries == [] then [] else Sources(entries[..|entries| - 1]) + entries[|entries| - 1].sources
  }

  function Offsets(entries: seq<Entry>): (offsets: seq<nat>)
    ensures |offsets| == |entries| + 1
  {
    if entries == [] then [0] else Offsets(entries[..|entries| - 1]) + [|Sources(entries)|]
  }

  /** Slice i of the compressed list is voxel i's sources. */
  lemma {:induction false} SliceIsVoxel(entries: seq<Entry>, i: nat)
    requires i < |entries|
    ensures var o := Offsets(entries);
      o[i] <= o[i + 1] <= |Sources(entries)| && Sources(entries)[o[i]..o[i + 1]] == entries[i].sources
  {
    var rest := entries[..|entries| - 1];
    LastOffset(rest);
    if i < |rest| {
      SliceIsVoxel(rest, i);
      var o := Offsets(rest);
      assert Sources(entries)[o[i]..o[i + 1]] == Sources(rest)[o[i]..o[i + 1]];
    }
  }

  lemma LastOffset(entries: seq<Entry>)
    ensures Offsets(entries)[|entries|] == |Sources(entries)| && Offsets(entries)[0] == 0
    decreases |entries|
  {
    if entries != [] {
      LastOffset(entries[..|entries| - 1]);
    }
  }

  lemma {:induction false} InSources(entries: seq<Entry>, x: nat)
    ensures x in Sources(entries) <==> exists i :: 0 <= i < |entries| && x in entries[i].sources
  {
    if entries != [] {
      var rest := entries[..|entries| - 1];
      InSources(rest, x);
      if exists i :: 0 <= i < |rest| && x in rest[i].sources {
        var i :| 0 <= i < |rest| && x in rest[i].sources;
        assert x in entries[i].sources;
      }
      if x in Sources(entries) && x !in Sources(rest) {
        assert x in entries[|rest|].sources;
      }
      if exists i :: 0 <= i < |entries| && x in entries[i].sources {
        var i :| 0 <= i < |entries| && x in entries[i].sources;
        if i < |rest| {
          assert x in rest[i].sources;
        }
      }
    }
  }

  // ----- the partition -----

  /** Every valid logical point is in exactly one slice, and each slice is one voxel's members in ascending
      order: the compressed list is a permutation of the valid indices. */
  lemma SourcesPartition(s: Surface<Vector>, size: real, x: nat)
    requires size > 0.0 && WellFormed(s)
    ensures var entries := Gathered(s, size, Logical(s));
      x in Sources(entries) <==> AmongFirst(s.grid, Logical(s), x) && x < |s.points| && (s.valid == [] || s.valid[x] != 0)
  {
    var n := Logical(s);
    var entries := Gathered(s, size, n);
    InSources(entries, x);
    if x in Sources(entries) {
      var i :| 0 <= i < |entries| && x in entries[i].sources;
      EntryMeans(s, size, n, i);
      SelectMeans(s.grid, InVoxel(s, size, entries[i].key), n, x);
    }
    if AmongFirst(s.grid, n, x) && Kept(s, x) {
      var key := KeyOf(PointAt(s, x), size);
      SelectMeans(s.grid, InVoxel(s, size, key), n, x);
      GatheredMeans(s, size, n, key);
      var i := LookupFound(entries, key);
      assert x in entries[i].sources;
    }
  }

  /** The sources of one voxel: not empty, ascending, valid, and in the voxel. */
  lemma VoxelSources(s: Surface<Vector>, size: real, i: nat)
    requires size > 0.0 && WellFormed(s) && i < |Gathered(s, size, Logical(s))|
    ensures var e := Gathered(s, size, Logical(s))[i];
      && e.sources != [] && Strictly(e.sources)
      && forall x :: x in e.sources ==> Kept(s, x) && KeyOf(PointAt(s, x), size) == e.key
  {
    var n := Logical(s);
    var e := Gathered(s, size, n)[i];
    EntryMeans(s, size, n, i);
    SelectAscends(|s.points|, s.grid, InVoxel(s, size, e.key), n);
    forall x | x in e.sources
      ensures Kept(s, x) && KeyOf(PointAt(s, x), size) == e.key
    {
      SelectMeans(s.grid, InVoxel(s, size, e.key), n, x);
      assert InVoxel(s, size, e.key)(x);
    }
  }

  /** The offsets rise strictly from 0 to the length of the list, and each slice is one voxel's sources. */
  lemma VoxelSlice(s: Surface<Vector>, size: real, entries: seq<Entry>, i: nat)
    requires size > 0.0 && WellFormed(s) && entries == Gathered(s, size, Logical(s)) && i < |entries|
    ensures var o := Offsets(entries);
      && o[0] == 0 && o[|entries|] == |Sources(entries)| && o[i] < o[i + 1] <= |Sources(entries)|
      && Sources(entries)[o[i]..o[i + 1]] == entries[i].sources
  {
    VoxelSources(s, size, i);
    SliceIsVoxel(entries, i);
    LastOffset(entries);
  }

  /** The voxels come in strict lexicographic key order. */
  lemma VoxelsOrdered(s: Surface<Vector>, size: real)
    requires size > 0.0
    ensures Ordered(Gathered(s, size, Logical(s)))
    ensures var entries := Gathered(s, size, Logical(s));
      forall i, j :: 0 <= i < j < |entries| ==>
        var a, b := entries[i].key, entries[j].key; a.x < b.x || (a.x == b.x && (a.y < b.y || (a.y == b.y && a.z < b.z)))
  {
    GatheredMeans(s, size, Logical(s), Key(0, 0, 0));
  }

  /** No point is listed twice. */
  lemma SourcesDistinct(s: Surface<Vector>, size: real)
    requires size > 0.0 && WellFormed(s)
    ensures Distinct(Sources(Gathered(s, size, Logical(s))))
  {
    var entries := Gathered(s, size, Logical(s));
    forall i: nat | i < |entries|
      ensures Strictly(entries[i].sources)
    {
      VoxelSources(s, size, i);
    }
    forall i: nat, j: nat, x | i < j < |entries| && x in entries[i].sources
      ensures x !in entries[j].sources
    {
      DifferentVoxels(s, size, i, j, x);
    }
    DisjointSources(entries);
  }

  lemma DifferentVoxels(s: Surface<Vector>, size: real, i: nat, j: nat, x: nat)
    requires size > 0.0 && WellFormed(s) && i < j < |Gathered(s, size, Logical(s))|
    requires x in Gathered(s, size, Logical(s))[i].sources
    ensures x !in Gathered(s, size, Logical(s))[j].sources
  {
    VoxelSources(s, size, i);
    VoxelSources(s, size, j);
    VoxelsOrdered(s, size);
  }

  lemma {:induction false} DisjointSources(entries: seq<Entry>)
    requires forall i: nat :: i < |entries| ==> Strictly(entries[i].sources)
    requires forall i: nat, j: nat, x :: i < j < |entries| && x in entries[i].sources ==> x !in entries[j].sources
    ensures Distinct(Sources(entries))
  {
    if entries != [] {
      var rest, last := entries[..|entries| - 1], entries[|entries| - 1];
      DisjointSources(rest);
      forall x | x in Sources(rest)
        ensures x !in last.sources
      {
        InSources(rest, x);
      }
      ConcatDistinct(Sources(rest), last.sources);
    }
  }

  lemma ConcatDistinct(a: seq<nat>, b: seq<nat>)
    requires Distinct(a) && Strictly(b) && forall x :: x in a ==> x !in b
    ensures Distinct(a + b)
  {
    forall i, j | 0 <= i < j < |a + b|
      ensures (a + b)[i] != (a + b)[j]
    {
      if i < |a| <= j {
        assert a[i] in a && b[j - |a|] in b;
      }
    }
  }

  // ----- centroids -----

  lemma CellBounds(x: real, size: real, k: int)
    requires size > 0.0
    ensures Cell(x, size) == k <==> Times(k as real, size) <= x < Times((k + 1) as real, size)
  {
    var q := x / size;
    assert q * size == x;
    if k as real <= q {
      ScaleOrder(k as real, q, size);
    } else {
      ScaleStrict(q, k as real, size);
    }
    if (k + 1) as real <= q {
      ScaleOrder((k + 1) as real, q, size);
    } else {
      ScaleStrict(q, (k + 1) as real, size);
    }
  }

  lemma ScaleOrder(a: real, b: real, s: real)
    requires a <= b && s > 0.0
    ensures Times(a, s) <= Times(b, s) && Times(b, s) == b * s
  {
  }

  lemma ScaleStrict(a: real, b: real, s: real)
    requires a < b && s > 0.0
    ensures Times(a, s) < Times(b, s) && Times(a, s) == a * s
  {
  }

  /** n copies of v, added up. */
  function Copies(n: nat, v: real): real {
    if n == 0 then 0.0 else Copies(n - 1, v) + v
  }

  lemma {:induction false} CopiesAreProduct(n: nat, v: real)
    ensures Copies(n, v) == Times(n as real, v)
  {
    if n > 0 {
      CopiesAreProduct(n - 1, v);
      OneMore((n - 1) as real, v);
    }
  }

  /** Every coordinate lies in [lower, upper). */
  predicate InBox(p: Vector, lower: Vector, upper: Vector) {
    lower.x <= p.x < upper.x && lower.y <= p.y < upper.y && lower.z <= p.z < upper.z
  }

  lemma {:induction false} SumInBox(s: Surface<Vector>, m: seq<nat>, lower: Vector, upper: Vector)
    requires m != [] && forall x :: x in m ==> InBox(PointAt(s, x), lower, upper)
    ensures InBox(PointSum(s, m), Vector(Copies(|m|, lower.x), Copies(|m|, lower.y), Copies(|m|, lower.z)),
                  Vector(Copies(|m|, upper.x), Copies(|m|, upper.y), Copies(|m|, upper.z)))
  {
    var rest := m[..|m| - 1];
    assert InBox(PointAt(s, m[|m| - 1]), lower, upper);
    if rest != [] {
      SumInBox(s, rest, lower, upper);
    } else {
      assert PointSum(s, rest) == ZERO;
    }
  }

  function Centroid(e: Entry): Vector {
    if e.sources == [] then ZERO
    else
      var n := |e.sources| as real;
      Vector(e.pointSum.x / n, e.pointSum.y / n, e.pointSum.z / n)
  }

  lemma MeanBetween(sum: real, n: nat, lower: real, upper: real)
    requires n > 0 && Copies(n, lower) <= sum < Copies(n, upper)
    ensures lower <= sum / n as real < upper
  {
    var q, c := sum / n as real, n as real;
    CopiesAreProduct(n, lower);
    CopiesAreProduct(n, upper);
    MeanReals(sum, c, q, lower, upper);
  }

  lemma MeanReals(sum: real, c: real, q: real, lower: real, upper: real)
    requires c >= 1.0 && q * c == sum && Times(c, lower) <= sum < Times(c, upper)
    ensures lower <= q < upper
  {
    assert Times(lower, c) == Times(c, lower) && Times(upper, c) == Times(c, upper);
    if q < lower {
      ScaleStrict(q, lower, c);
    }
    if upper <= q {
      ScaleOrder(upper, q, c);
    }
  }

  /** The corner of a voxel. */
  function Corner(k: Key, size: real): Vector {
    Vector(Times(k.x as real, size), Times(k.y as real, size), Times(k.z as real, size))
  }

  lemma KeyIsBox(p: Vector, size: real, k: Key)
    requires size > 0.0
    ensures KeyOf(p, size) == k <==> InBox(p, Corner(k, size), Corner(Key(k.x + 1, k.y + 1, k.z + 1), size))
  {
    CellBounds(p.x, size, k.x);
    CellBounds(p.y, size, k.y);
    CellBounds(p.z, size, k.z);
  }

  /** In exact arithmetic every centroid stays in its own voxel. */
  lemma CentroidStays(s: Surface<Vector>, size: real, i: nat)
    requires size > 0.0 && WellFormed(s) && i < |Gathered(s, size, Logical(s))|
    ensures var e := Gathered(s, size, Logical(s))[i]; KeyOf(Centroid(e), size) == e.key
  {
    var e := Gathered(s, size, Logical(s))[i];
    VoxelSources(s, size, i);
    EntryMeans(s, size, Logical(s), i);
    CentroidInBox(s, size, e);
  }

  lemma CentroidInBox(s: Surface<Vector>, size: real, e: Entry)
    requires size > 0.0 && e.sources != [] && e.pointSum == PointSum(s, e.sources)
    requires forall x :: x in e.sources ==> KeyOf(PointAt(s, x), size) == e.key
    ensures KeyOf(Centroid(e), size) == e.key
  {
    var lower, upper, n := Corner(e.key, size), Corner(Key(e.key.x + 1, e.key.y + 1, e.key.z + 1), size), |e.sources|;
    forall x | x in e.sources
      ensures InBox(PointAt(s, x), lower, upper)
    {
      KeyIsBox(PointAt(s, x), size, e.key);
    }
    SumInBox(s, e.sources, lower, upper);
    MeanBetween(e.pointSum.x, n, lower.x, upper.x);
    MeanBetween(e.pointSum.y, n, lower.y, upper.y);
    MeanBetween(e.pointSum.z, n, lower.z, upper.z);
    KeyIsBox(Centroid(e), size, e.key);
  }

  // ----- the sampled surface -----

  /** Divided by its length, if it has one. */
  function Unit(f: Functions, v: Vector): Vector {
    var length := Norm(f, v);
    if length > 0.0 then Vector(v.x / length, v.y / length, v.z / length) else ZERO
  }

  datatype Sampled = Sampled(points: seq<Vector>, normals: seq<Vector>, offsets: seq<nat>, sources: seq<nat>)

  function CentroidOf(): Entry -> Vector {
    (e: Entry) => Centroid(e)
  }

  function NormalOf(f: Functions): Entry -> Vector {
    (e: Entry) => Unit(f, e.normalSum)
  }

  function Emitted(f: Functions, entries: seq<Entry>, normals: bool): Sampled {
    Sampled(Map(CentroidOf(), entries), if normals then Map(NormalOf(f), entries) else [], Offsets(entries), Sources(entries))
  }

  lemma UnitIsNormalized(f: Functions, v: Vector)
    ensures Unit(f, v) == Normalized(f, v)
  {
    var n := Norm(f, v);
    if n > 0.0 {
      DivideIsScale(v.x, n);
      DivideIsScale(v.y, n);
      DivideIsScale(v.z, n);
    }
  }

  lemma OverOne(v: Vector)
    ensures Vector(v.x / 1.0, v.y / 1.0, v.z / 1.0) == v
  {
  }

  /** A unit vector, or none, is its own direction. */
  lemma UnitTwice(f: Functions, v: Vector)
    requires IsRoot(f.root)
    ensures Unit(f, Unit(f, v)) == Unit(f, v)
  {
    var u := Unit(f, v);
    UnitIsNormalized(f, v);
    NormalizedUnit(f, v);
    NoLength(v);
    NormalizedUnit(f, u);
    UnitIsNormalized(f, u);
    if Dot(v, v) > 0.0 {
      UnitRoot(f);
      OverOne(u);
    }
  }

  /** The direction of v, or no direction. */
  ghost predicate IsDirection(u: Vector, length: real, v: Vector) {
    if v == ZERO then u == ZERO else length > 0.0 && Dot(u, u) == 1.0 && v == Scale(length, u)
  }

  lemma UnitMeans(f: Functions, v: Vector)
    requires IsRoot(f.root)
    ensures IsDirection(Unit(f, v), Norm(f, v), v)
  {
    UnitIsNormalized(f, v);
    NormalizedUnit(f, v);
    NoLength(v);
    if v != ZERO {
      ScaleBack(f, v);
    }
  }

  lemma CentroidMeans(e: Entry)
    requires e.sources != []
    ensures Scale(|e.sources| as real, Centroid(e)) == e.pointSum
  {
    QuotientTimes(e.pointSum.x, |e.sources| as real);
    QuotientTimes(e.pointSum.y, |e.sources| as real);
    QuotientTimes(e.pointSum.z, |e.sources| as real);
    CommutingProduct(|e.sources| as real, Centroid(e).x);
    CommutingProduct(|e.sources| as real, Centroid(e).y);
    CommutingProduct(|e.sources| as real, Centroid(e).z);
  }

  lemma CommutingProduct(a: real, b: real)
    ensures Times(a, b) == b * a
  {
  }

  /** A voxel is emitted as the mean of its points, with the direction of the sum of their normals. */
  lemma EmittedMeans(f: Functions, s: Surface<Vector>, size: real, i: nat) returns (length: real)
    requires IsRoot(f.root) && size > 0.0 && WellFormed(s) && i < |Gathered(s, size, Logical(s))|
    ensures var entries := Gathered(s, size, Logical(s));
      var out, m := Emitted(f, entries, s.normals != []), entries[i].sources;
      && |out.points| == |entries| && Scale(|m| as real, out.points[i]) == SumAt(s.points, m)
      && (if s.normals == [] then out.normals == []
          else |out.normals| == |entries| && IsDirection(out.normals[i], length, SumAt(s.normals, m)))
  {
    var e := Gathered(s, size, Logical(s))[i];
    EntryMeans(s, size, Logical(s), i);
    SumsMean(s, e.sources);
    CentroidMeans(e);
    length := Norm(f, e.normalSum);
    UnitMeans(f, e.normalSum);
  }

  // ----- sampling again -----

  /** The output of sampling as a surface: no mask, no grid. */
  function Again(out: Sampled): Surface<Vector> {
    Surface(out.points, out.normals, [], None)
  }

  /** What sampling the output puts into voxel i. */
  function Alone(f: Functions, e: Entry, normals: bool, i: nat): Entry {
    Entry(e.key, Centroid(e), if normals then Unit(f, e.normalSum) else ZERO, [i])
  }

  function AllAlone(f: Functions, entries: seq<Entry>, normals: bool, n: nat): (r: seq<Entry>)
    requires n <= |entries|
    ensures |r| == n && forall i :: 0 <= i < n ==> r[i] == Alone(f, entries[i], normals, i)
  {
    seq(n, i requires 0 <= i < n => Alone(f, entries[i], normals, i))
  }

  lemma {:induction false} AddLast(entries: seq<Entry>, key: Key, p: Vector, n: Vector, index: nat)
    requires forall i :: 0 <= i < |entries| ==> Before(entries[i].key, key)
    ensures Add(entries, key, p, n, index) == entries + [Entry(key, p, n, [index])]
  {
    if entries != [] {
      AddLast(entries[1..], key, p, n, index);
    }
  }

  /** Sampling the output gathers each centroid alone in its old voxel. */
  lemma {:induction false} GatheredAgain(f: Functions, size: real, entries: seq<Entry>, normals: bool, n: nat)
    requires size > 0.0 && n <= |entries| && Ordered(entries)
    requires forall i :: 0 <= i < |entries| ==> KeyOf(Centroid(entries[i]), size) == entries[i].key
    ensures Gathered(Again(Emitted(f, entries, normals)), size, n) == AllAlone(f, entries, normals, n)
  {
    if n > 0 {
      GatheredAgain(f, size, entries, normals, n - 1);
      var t, e := Again(Emitted(f, entries, normals)), entries[n - 1];
      assert PointAt(t, n - 1) == Centroid(e);
      assert NormalAt(t, n - 1) == if normals then Unit(f, e.normalSum) else ZERO;
      AddLast(AllAlone(f, entries, normals, n - 1), e.key, PointAt(t, n - 1), NormalAt(t, n - 1), n - 1);
      assert AllAlone(f, entries, normals, n) == AllAlone(f, entries, normals, n - 1) + [Alone(f, e, normals, n - 1)];
    }
  }

  lemma {:induction false} AloneLists(f: Functions, entries: seq<Entry>, normals: bool, n: nat)
    requires n <= |entries|
    ensures Sources(AllAlone(f, entries, normals, n)) == Indices(n) && Offsets(AllAlone(f, entries, normals, n)) == Indices(n + 1)
  {
    if n > 0 {
      AloneLists(f, entries, normals, n - 1);
      var all := AllAlone(f, entries, normals, n);
      assert all[..n - 1] == AllAlone(f, entries, normals, n - 1);
      assert Indices(n) == Indices(n - 1) + [n - 1] && Indices(n + 1) == Indices(n) + [n];
    }
  }

  /** Sampling is idempotent: sampling the output gives the same points and normals and the identity mapping. */
  lemma SamplingTwice(f: Functions, s: Surface<Vector>, size: real)
    requires IsRoot(f.root) && size > 0.0 && WellFormed(s)
    ensures var out := Emitted(f, Gathered(s, size, Logical(s)), s.normals != []);
      var n := |out.points|;
      Emitted(f, Gathered(Again(out), size, n), out.normals != [])
        == Sampled(out.points, out.normals, Indices(n + 1), Indices(n))
  {
    var entries, normals := Gathered(s, size, Logical(s)), s.normals != [];
    forall i: nat | i < |entries|
      ensures KeyOf(Centroid(entries[i]), size) == entries[i].key
    {
      CentroidStays(s, size, i);
    }
    VoxelsOrdered(s, size);
    EntriesTwice(f, size, entries, normals);
  }

  lemma CentroidsTwice(f: Functions, entries: seq<Entry>, normals: bool)
    ensures Map(CentroidOf(), AllAlone(f, entries, normals, |entries|)) == Map(CentroidOf(), entries)
  {
    var again := AllAlone(f, entries, normals, |entries|);
    forall i | 0 <= i < |entries|
      ensures Centroid(again[i]) == Centroid(entries[i])
    {
      OverOne(Centroid(entries[i]));
    }
  }

  lemma NormalsTwice(f: Functions, entries: seq<Entry>)
    requires IsRoot(f.root)
    ensures Map(NormalOf(f), AllAlone(f, entries, true, |entries|)) == Map(NormalOf(f), entries)
  {
    var again := AllAlone(f, entries, true, |entries|);
    forall i | 0 <= i < |entries|
      ensures Unit(f, again[i].normalSum) == Unit(f, entries[i].normalSum)
    {
      UnitTwice(f, entries[i].normalSum);
    }
  }

  lemma EntriesTwice(f: Functions, size: real, entries: seq<Entry>, normals: bool)
    requires IsRoot(f.root) && size > 0.0 && Ordered(entries)
    requires forall i :: 0 <= i < |entries| ==> KeyOf(Centroid(entries[i]), size) == entries[i].key
    ensures var out, n := Emitted(f, entries, normals), |entries|;
      Emitted(f, Gathered(Again(out), size, n), normals) == Sampled(out.points, out.normals, Indices(n + 1), Indices(n))
  {
    GatheredAgain(f, size, entries, normals, |entries|);
    AloneLists(f, entries, normals, |entries|);
    CentroidsTwice(f, entries, normals);
    if normals {
      NormalsTwice(f, entries);
    }
  }

  // ----- the algorithm -----

  datatype VoxelError = WrongUnit | BadSize | InvalidKey | NoSamples

  /** The first coordinate that leaves the 64-bit keys decides. */
  function CoordinateKey(coordinate: real, size: real): Result<int, VoxelError>
    requires size > 0.0
  {
    var value := Cell(coordinate, size);
    if value < -KEY_LIMIT || value >= KEY_LIMIT then Failure(InvalidKey) else Success(value)
  }

  method AddPoint(entries: seq<Entry>, key: Key, p: Vector, n: Vector, index: nat) returns (more: seq<Entry>)
    requires Ordered(entries)
    ensures more == Add(entries, key, p, n, index)
  {
    var i := 0;
    while i < |entries| && Before(entries[i].key, key)
      invariant i <= |entries| && forall j :: 0 <= j < i ==> Before(entries[j].key, key)
    {
      i := i + 1;
    }
    AddAt(entries, key, p, n, index, i);
    if i < |entries| && entries[i].key == key {
      var e := entries[i];
      more := entries[i := Entry(key, Sum2(e.pointSum, p), Sum2(e.normalSum, n), e.sources + [index])];
    } else {
      more := entries[..i] + [Entry(key, p, n, [index])] + entries[i..];
    }
  }

  lemma {:induction false} AddAt(entries: seq<Entry>, key: Key, p: Vector, n: Vector, index: nat, i: nat)
    requires i <= |entries| && forall j :: 0 <= j < i ==> Before(entries[j].key, key)
    requires i < |entries| ==> !Before(entries[i].key, key)
    ensures Add(entries, key, p, n, index) ==
      if i < |entries| && entries[i].key == key then entries[i := Grown(Some(entries[i]), key, p, n, index)]
      else entries[..i] + [Entry(key, p, n, [index])] + entries[i..]
  {
    if i > 0 {
      var rest := entries[1..];
      AddAt(rest, key, p, n, index, i - 1);
      assert Add(entries, key, p, n, index) == [entries[0]] + Add(rest, key, p, n, index);
      assert entries[..i] == [entries[0]] + rest[..i - 1] && entries[i..] == rest[i - 1..];
    }
  }

  /** The points whose keys leave the 64-bit range. */
  ghost predicate AllKeysFit(s: Surface<Vector>, size: real, n: nat)
    requires size > 0.0
  {
    forall k: nat :: k < n && Kept(s, StorageIndex(s.grid, k)) ==> KeyFits(KeyOf(PointAt(s, StorageIndex(s.grid, k)), size))
  }

  /** One point's turn in the gathering loop. */
  method GatherPoint(s: Surface<Vector>, size: real, entries: seq<Entry>, ghost k: nat, index: nat) returns (r: Result<seq<Entry>, VoxelError>)
    requires WellFormed(s) && size > 0.0 && k < Logical(s) && index == StorageIndex(s.grid, k) && entries == Gathered(s, size, k)
    ensures r.Failure? <==> Kept(s, index) && !KeyFits(KeyOf(PointAt(s, index), size))
    ensures r.Failure? ==> r.error == InvalidKey
    ensures r.Success? ==> r.value == Gathered(s, size, k + 1)
  {
    StorageInRange(|s.points|, s.grid, k);
    if s.valid != [] && s.valid[index] == 0 {
      return Success(entries);
    }
    var p := s.points[index];
    var keyX, keyY, keyZ := CoordinateKey(p.x, size), CoordinateKey(p.y, size), CoordinateKey(p.z, size);
    if keyX.Failure? || keyY.Failure? || keyZ.Failure? {
      return Failure(InvalidKey);
    }
    GatheredMeans(s, size, k, Key(0, 0, 0));
    var more := AddPoint(entries, Key(keyX.value, keyY.value, keyZ.value), p, NormalAt(s, index), index);
    r := Success(more);
  }

  /** The gathering loop; it stops adding at the first invalid key. */
  method Gather(s: Surface<Vector>, size: real) returns (r: Result<seq<Entry>, VoxelError>)
    requires WellFormed(s) && size > 0.0
    ensures r.Success? <==> AllKeysFit(s, size, Logical(s))
    ensures r.Success? ==> r.value == Gathered(s, size, Logical(s))
    ensures r.Failure? ==> r.error == InvalidKey
  {
    var order := ForEachLogicalIndex(|s.points|, s.grid);
    var entries: seq<Entry> := [];
    for k := 0 to |order|
      invariant AllKeysFit(s, size, k) && entries == Gathered(s, size, k)
    {
      var more := GatherPoint(s, size, entries, k, order[k]);
      if more.Failure? {
        assert !KeyFits(KeyOf(PointAt(s, StorageIndex(s.grid, k)), size));
        return more;
      }
      entries := more.value;
    }
    r := Success(entries);
  }

  /** The output loop over the ordered voxels. */
  method Emit(f: Functions, entries: seq<Entry>, hasNormals: bool) returns (out: Sampled)
    ensures out == Emitted(f, entries, hasNormals)
  {
    var points: seq<Vector>, normals: seq<Vector>, offsets: seq<nat>, sources: seq<nat> := [], [], [0], [];
    for i := 0 to |entries|
      invariant points == Map(CentroidOf(), entries[..i]) && normals == (if hasNormals then Map(NormalOf(f), entries[..i]) else [])
      invariant offsets == Offsets(entries[..i]) && sources == Sources(entries[..i])
    {
      var e := entries[i];
      assert entries[..i + 1][..i] == entries[..i];
      points := points + [Centroid(e)];
      if hasNormals {
        normals := normals + [Unit(f, e.normalSum)];
      }
      sources := sources + e.sources;
      offsets := offsets + [|sources|];
    }
    assert entries[..|entries|] == entries;
    out := Sampled(points, normals, offsets, sources);
  }

  /** voxel_sample. */
  method VoxelSample(f: Functions, s: Surface<Vector>, millimeters: bool, size: Option<real>) returns (r: Result<Sampled, VoxelError>)
    requires WellFormed(s)
    ensures r.Success? <==>
      && millimeters && size.Some? && size.value > 0.0 && AllKeysFit(s, size.value, Logical(s))
      && exists x :: AmongFirst(s.grid, Logical(s), x) && Kept(s, x)
    ensures r == Failure(WrongUnit) <==> !millimeters
    ensures r == Failure(BadSize) <==> millimeters && (size.None? || size.value <= 0.0)
    ensures r == Failure(InvalidKey) <==> millimeters && size.Some? && size.value > 0.0 && !AllKeysFit(s, size.value, Logical(s))
    ensures r.Success? ==> r.value == Emitted(f, Gathered(s, size.value, Logical(s)), s.normals != [])
  {
    if !millimeters {
      return Failure(WrongUnit);
    }
    if size.None? || size.value <= 0.0 {
      return Failure(BadSize);
    }
    var gathered := Gather(s, size.value);
    if gathered.Failure? {
      return Failure(gathered.error);
    }
    EmptyMeansNone(s, size.value);
    if gathered.value == [] {
      return Failure(NoSamples);
    }
    var out := Emit(f, gathered.value, s.normals != []);
    r := Success(out);
  }

  /** The map is empty exactly when no logical point is valid. */
  lemma EmptyMeansNone(s: Surface<Vector>, size: real)
    requires WellFormed(s) && size > 0.0
    ensures Gathered(s, size, Logical(s)) != [] <==> exists x :: AmongFirst(s.grid, Logical(s), x) && Kept(s, x)
  {
    var entries := Gathered(s, size, Logical(s));
    if entries != [] {
      VoxelSources(s, size, 0);
      InSources(entries, entries[0].sources[0]);
      assert entries[0].sources[0] in entries[0].sources;
      SourcesPartition(s, size, entries[0].sources[0]);
    }
    if x :| AmongFirst(s.grid, Logical(s), x) && Kept(s, x) {
      SourcesPartition(s, size, x);
      assert Sources([]) == [];
    }
  }

  /** The keys of voxels that hold points of range are in range. */
  lemma VoxelKeyFits(s: Surface<Vector>, size: real, i: nat)
    requires size > 0.0 && WellFormed(s) && AllKeysFit(s, size, Logical(s)) && i < |Gathered(s, size, Logical(s))|
    ensures KeyFits(Gathered(s, size, Logical(s))[i].key)
  {
    var entries := Gathered(s, size, Logical(s));
    VoxelSources(s, size, i);
    var x := entries[i].sources[0];
    assert x in entries[i].sources;
    InSources(entries, x);
    SourcesPartition(s, size, x);
    var k: nat :| k < Logical(s) && StorageIndex(s.grid, k) == x;
    assert KeyFits(KeyOf(PointAt(s, StorageIndex(s.grid, k)), size));
  }

  /** What sampling delivers can be sampled. */
  lemma OutputIsSampleable(f: Functions, s: Surface<Vector>, size: real)
    requires size > 0.0 && WellFormed(s) && AllKeysFit(s, size, Logical(s)) && Gathered(s, size, Logical(s)) != []
    ensures var t := Again(Emitted(f, Gathered(s, size, Logical(s)), s.normals != []));
      && WellFormed(t) && AllKeysFit(t, size, Logical(t)) && (t.normals != [] <==> s.normals != [])
      && exists x :: AmongFirst(t.grid, Logical(t), x) && Kept(t, x)
  {
    var entries := Gathered(s, size, Logical(s));
    var t := Again(Emitted(f, entries, s.normals != []));
    assert |t.points| == |entries| && t.points[0] == Centroid(entries[0]);
    forall k: nat | k < Logical(t)
      ensures KeyFits(KeyOf(PointAt(t, StorageIndex(t.grid, k)), size))
    {
      VoxelKeyFits(s, size, k);
      CentroidStays(s, size, k);
    }
    assert StorageIndex(t.grid, 0) == 0 && Kept(t, 0);
  }

  /** A sampled surface can be sampled again, at the same size: that succeeds and changes nothing. */
  method SampleAgain(f: Functions, s: Surface<Vector>, millimeters: bool, size: Option<real>)
    returns (first: Result<Sampled, VoxelError>, second: Result<Sampled, VoxelError>)
    requires IsRoot(f.root) && WellFormed(s)
    ensures first.Failure? ==> second == first
    ensures first.Success? ==>
      var out, n := first.value, |first.value.points|;
      second == Success(Sampled(out.points, out.normals, Indices(n + 1), Indices(n)))
  {
    first := VoxelSample(f, s, millimeters, size);
    if first.Failure? {
      return first, first;
    }
    EmptyMeansNone(s, size.value);
    OutputIsSampleable(f, s, size.value);
    SamplingTwice(f, s, size.value);
    second := VoxelSample(f, Again(first.value), millimeters, size);
  }
}
