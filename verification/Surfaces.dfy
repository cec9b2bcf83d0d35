/**
  The surface contract of include/pointcloud_ad/surface.hpp: point storage that may be a grid with
  padded rows, and the row-major enumeration of its logical points.
 */
module Surfaces {
  import opened Basics

  const SIZE_MAX: nat := 0xffff_ffff_ffff_ffff
  const UINT32_MAX: nat := 0xffff_ffff

  type uint32 = x: nat | x <= UINT32_MAX

  datatype Grid = Grid(width: uint32, height: uint32, stride: uint32)

  /** Points and normals are parallel; an empty mask means all points are valid. */
  datatype Surface<P> = Surface(points: seq<P>, normals: seq<P>, valid: seq<nat>, grid: Option<Grid>)

  predicate ValidAt<P>(s: Surface<P>, index: nat)
    requires s.valid == [] || index < |s.valid|
  {
    s.valid == [] || s.valid[index] == 1
  }

  // ----- shape -----

  /** The storage of a grid: full strides, except that the last row stops after its width. */
  ghost predicate FitsGrid(n: nat, grid: Option<Grid>) {
    grid.Some? ==>
      var g := grid.value;
      0 < g.width <= g.stride && 0 < g.height && n == (g.height - 1) * g.stride + g.width
  }

  function LogicalCount(n: nat, grid: Option<Grid>): nat {
    match grid
    case None => n
    case Some(g) => g.width * g.height
  }

  /** The number of logical points of a surface. */
  function Logical<P>(s: Surface<P>): nat {
    LogicalCount(|s.points|, s.grid)
  }

  function Steps(count: nat, step: nat): nat {
    count * step
  }

  /** The storage index of the k-th logical point, in closed form. */
  function StorageIndex(grid: Option<Grid>, k: nat): nat {
    match grid
    case None => k
    case Some(g) => if g.width == 0 then 0 else Steps(k / g.width, g.stride) + k % g.width
  }

  lemma MulMonotone(a: nat, b: nat, c: nat)
    requires a <= b
    ensures a * c <= b * c
  {
  }

  /** A whole row further on. */
  lemma MulStep(a: nat, b: nat, c: nat)
    requires a < b
    ensures a * c + c <= b * c
  {
    MulMonotone(a + 1, b, c);
  }

  lemma DivModOf(row: nat, column: nat, width: nat)
    requires column < width
    ensures (row * width + column) / width == row && (row * width + column) % width == column
  {
    var k := row * width + column;
    var q, r := k / width, k % width;
    assert k == q * width + r;
    if q < row {
      MulStep(q, row, width);
    } else if q > row {
      MulStep(row, q, width);
    }
  }

  /** Logical points occupy distinct, ascending places inside the storage. */
  lemma StorageIncreasing(n: nat, grid: Option<Grid>, j: nat, k: nat)
    requires FitsGrid(n, grid) && j < k < LogicalCount(n, grid)
    ensures StorageIndex(grid, j) < StorageIndex(grid, k) < n
  {
    StorageInRange(n, grid, k);
    if grid.Some? {
      GridIncreasing(grid.value, j, k);
    }
  }

  lemma GridIncreasing(g: Grid, j: nat, k: nat)
    requires 0 < g.width <= g.stride && j < k
    ensures StorageIndex(Some(g), j) < StorageIndex(Some(g), k)
  {
    DivisionMonotone(j, k, g.width);
    assert j % g.width < g.width;
    RowsApart(j / g.width, j % g.width, k / g.width, k % g.width, g.stride);
  }

  lemma RowsApart(a: nat, c: nat, b: nat, d: nat, stride: nat)
    requires a <= b && c < stride && (a == b ==> c < d)
    ensures Steps(a, stride) + c < Steps(b, stride) + d
  {
    if a < b {
      MulStep(a, b, stride);
    }
  }

  lemma DivisionMonotone(j: nat, k: nat, width: nat)
    requires j < k && width > 0
    ensures j / width <= k / width
    ensures j / width == k / width ==> j % width < k % width
  {
    var a, b := j / width, k / width;
    assert j == a * width + j % width && k == b * width + k % width;
    if a > b {
      MulStep(b, a, width);
    }
  }

  lemma StorageInRange(n: nat, grid: Option<Grid>, k: nat)
    requires FitsGrid(n, grid) && k < LogicalCount(n, grid)
    ensures StorageIndex(grid, k) < n
  {
    if grid.Some? {
      var g := grid.value;
      var row := k / g.width;
      assert k == row * g.width + k % g.width;
      if row >= g.height {
        MulMonotone(g.height, row, g.width);
      }
      MulMonotone(row, g.height - 1, g.stride);
    }
  }

  /** for_each_logical_index: storage order, or the nested row and column loops. */
  method ForEachLogicalIndex(n: nat, grid: Option<Grid>) returns (order: seq<nat>)
    requires FitsGrid(n, grid)
    ensures |order| == LogicalCount(n, grid)
    ensures forall k :: 0 <= k < |order| ==> order[k] == StorageIndex(grid, k)
  {
    order := [];
    if grid.None? {
      for index := 0 to n
        invariant |order| == index && forall k :: 0 <= k < index ==> order[k] == k
      {
        order := order + [index];
      }
      return;
    }
    var g := grid.value;
    for row := 0 to g.height
      invariant |order| == row * g.width
      invariant forall k :: 0 <= k < |order| ==> order[k] == StorageIndex(grid, k)
    {
      for column := 0 to g.width
        invariant |order| == row * g.width + column
        invariant forall k :: 0 <= k < |order| ==> order[k] == StorageIndex(grid, k)
      {
        DivModOf(row, column, g.width);
        order := order + [row * g.stride + column];
      }
      assert (row + 1) * g.width == row * g.width + g.width;
    }
    assert g.height * g.width == g.width * g.height;
  }

  // ----- validation -----

  datatype SurfaceError =
    | NoPoints | NormalsSize | MaskSize | EmptyGrid | ShortStride | GridOverflow | GridStorage
    | MaskElement | PointNotFinite | NormalNotFinite

  /** What the contract asks of one logical point. */
  predicate PointOk<P>(s: Surface<P>, finite: P -> bool, index: nat)
    requires index < |s.points| && (s.normals == [] || |s.normals| == |s.points|)
    requires s.valid == [] || |s.valid| == |s.points|
  {
    && (s.valid == [] || s.valid[index] <= 1)
    && (ValidAt(s, index) ==> finite(s.points[index]) && (s.normals == [] || finite(s.normals[index])))
  }

  ghost predicate WellFormed<P>(s: Surface<P>) {
    && s.points != []
    && (s.normals == [] || |s.normals| == |s.points|)
    && (s.valid == [] || |s.valid| == |s.points|)
    && FitsGrid(|s.points|, s.grid)
  }

  /** What is wrong with one stored point, mask element first. */
  function IndexFault<P>(s: Surface<P>, finite: P -> bool, index: nat): (fault: Option<SurfaceError>)
    requires index < |s.points| && (s.normals == [] || |s.normals| == |s.points|)
    requires s.valid == [] || |s.valid| == |s.points|
    ensures fault.None? <==> PointOk(s, finite, index)
  {
    if s.valid != [] && s.valid[index] > 1 then Some(MaskElement)
    else if ValidAt(s, index) && !finite(s.points[index]) then Some(PointNotFinite)
    else if ValidAt(s, index) && s.normals != [] && !finite(s.normals[index]) then Some(NormalNotFinite)
    else None
  }

  /** What is wrong with the first bad one among n logical points. */
  ghost function PointsFault<P>(s: Surface<P>, finite: P -> bool, n: nat): (fault: Option<SurfaceError>)
    requires WellFormed(s) && n <= LogicalCount(|s.points|, s.grid)
    ensures fault.None? <==> forall k: nat :: k < n ==> StorageIndex(s.grid, k) < |s.points| && PointOk(s, finite, StorageIndex(s.grid, k))
  {
    if n == 0 then None
    else
      StorageInRange(|s.points|, s.grid, n - 1);
      var earlier := PointsFault(s, finite, n - 1);
      if earlier.Some? then earlier else IndexFault(s, finite, StorageIndex(s.grid, n - 1))
  }

  /** What is wrong with a grid over n stored points. */
  function GridFault(n: nat, g: Grid): (fault: Option<SurfaceError>)
    ensures fault.None? ==> FitsGrid(n, Some(g))
    ensures n <= SIZE_MAX && FitsGrid(n, Some(g)) ==> fault.None?
  {
    if g.width == 0 || g.height == 0 then Some(EmptyGrid)
    else if g.stride < g.width then Some(ShortStride)
    else if (g.height - 1) * g.stride + g.width > SIZE_MAX then Some(GridOverflow)
    else if n != (g.height - 1) * g.stride + g.width then Some(GridStorage)
    else None
  }

  /** What is wrong with a surface. */
  ghost function SurfaceFault<P>(s: Surface<P>, finite: P -> bool): (fault: Option<SurfaceError>)
    ensures fault.None? ==> IsSurface(s, finite)
    ensures |s.points| <= SIZE_MAX && IsSurface(s, finite) ==> fault.None?
  {
    if s.points == [] then Some(NoPoints)
    else if s.normals != [] && |s.normals| != |s.points| then Some(NormalsSize)
    else if s.valid != [] && |s.valid| != |s.points| then Some(MaskSize)
    else
      var grid := if s.grid.Some? then GridFault(|s.points|, s.grid.value) else None;
      if grid.Some? then grid else PointsFault(s, finite, LogicalCount(|s.points|, s.grid))
  }

  /** The whole contract. Padding is not looked at. */
  ghost predicate IsSurface<P>(s: Surface<P>, finite: P -> bool) {
    && WellFormed(s)
    && forall k: nat :: k < LogicalCount(|s.points|, s.grid) ==> StorageIndex(s.grid, k) < |s.points| && PointOk(s, finite, StorageIndex(s.grid, k))
  }

  /** Which fault of a grid is reported: the first of an empty one, a stride below the width, a storage beyond size_t, and
      a storage of another size. */
  lemma GridFaultMeans(n: nat, g: Grid, rows: nat)
    requires g.height > 0 ==> rows == (g.height - 1) * g.stride
    ensures var fault := GridFault(n, g);
      && (fault == Some(EmptyGrid) <==> g.width == 0 || g.height == 0)
      && (fault == Some(ShortStride) <==> 0 < g.height && g.stride < g.width)
      && (fault == Some(GridOverflow) <==> 0 < g.width <= g.stride && 0 < g.height && rows + g.width > SIZE_MAX)
      && (fault == Some(GridStorage) <==> 0 < g.width <= g.stride && 0 < g.height && rows + g.width <= SIZE_MAX && n != rows + g.width)
      && (fault == None || fault in [Some(EmptyGrid), Some(ShortStride), Some(GridOverflow), Some(GridStorage)])
  {
  }

  /** Which fault of a surface is reported: the first of no points, normals or a mask of another size, the grid's fault,
      and that of a point. */
  lemma SurfaceFaultMeans<P>(s: Surface<P>, finite: P -> bool)
    ensures var fault := SurfaceFault(s, finite);
      && (fault == Some(NoPoints) <==> |s.points| == 0)
      && (fault == Some(NormalsSize) <==> |s.points| > 0 && s.normals != [] && |s.normals| != |s.points|)
      && (fault == Some(MaskSize) <==>
            && |s.points| > 0 && (s.normals == [] || |s.normals| == |s.points|)
            && s.valid != [] && |s.valid| != |s.points|)
      && (|s.points| > 0 && (s.normals == [] || |s.normals| == |s.points|) && (s.valid == [] || |s.valid| == |s.points|) ==>
            var grid := if s.grid.Some? then GridFault(|s.points|, s.grid.value) else None;
            if grid.Some? then fault == grid
            else WellFormed(s) && fault == PointsFault(s, finite, Logical(s)))
  {
    if |s.points| == 0 {
    } else if s.normals != [] && |s.normals| != |s.points| {
    } else if s.valid != [] && |s.valid| != |s.points| {
    } else {
      var grid := if s.grid.Some? then GridFault(|s.points|, s.grid.value) else None;
      if grid.Some? {
        GridFaultKind(|s.points|, s.grid.value);
      } else {
        assert WellFormed(s);
        var k := PointFaultMeans(s, finite, Logical(s));
      }
    }
  }

  lemma GridFaultKind(n: nat, g: Grid)
    ensures GridFault(n, g) !in [Some(NoPoints), Some(NormalsSize), Some(MaskSize)]
  {
  }

  /** Of the points the first bad one is reported, its mask element before its point and its point before its normal. */
  lemma {:induction false} PointFaultMeans<P>(s: Surface<P>, finite: P -> bool, n: nat) returns (k: nat)
    requires WellFormed(s) && n <= LogicalCount(|s.points|, s.grid)
    ensures var fault := PointsFault(s, finite, n); fault.Some? ==>
      && k < n && StorageIndex(s.grid, k) < |s.points|
      && (forall j: nat :: j < k ==> StorageIndex(s.grid, j) < |s.points| && PointOk(s, finite, StorageIndex(s.grid, j)))
      && var at := StorageIndex(s.grid, k);
      && (fault == Some(MaskElement) <==> s.valid != [] && s.valid[at] > 1)
      && (fault == Some(PointNotFinite) <==> (s.valid == [] || s.valid[at] == 1) && !finite(s.points[at]))
      && (fault == Some(NormalNotFinite) <==>
            (s.valid == [] || s.valid[at] == 1) && finite(s.points[at]) && s.normals != [] && !finite(s.normals[at]))
      && (fault == Some(MaskElement) || fault == Some(PointNotFinite) || fault == Some(NormalNotFinite))
  {
    k := 0;
    if n > 0 {
      k := PointFaultMeans(s, finite, n - 1);
      if PointsFault(s, finite, n - 1).None? {
        k := n - 1;
        StorageInRange(|s.points|, s.grid, k);
      }
    }
  }

  /** The overflow guard is exact: it rejects just the grids whose storage no size_t can count. */
  lemma GuardIsExact(g: Grid)
    requires g.width > 0 && g.height > 0 && g.stride >= g.width
    ensures g.height - 1 > (SIZE_MAX - g.width) / g.stride <==> (g.height - 1) * g.stride + g.width > SIZE_MAX
  {
    var rows, room := g.height - 1, SIZE_MAX - g.width;
    var q := room / g.stride;
    assert room == q * g.stride + room % g.stride;
    if rows > q {
      MulStep(q, rows, g.stride);
    } else {
      MulMonotone(rows, q, g.stride);
    }
  }

  /** Logical points never outnumber the storage, so their count does not wrap either. */
  lemma LogicalFitsStorage(n: nat, grid: Option<Grid>)
    requires FitsGrid(n, grid)
    ensures LogicalCount(n, grid) <= n
  {
    if grid.Some? {
      var g := grid.value;
      MulMonotone(g.width, g.stride, g.height - 1);
      assert g.width * (g.height - 1) + g.width == g.width * g.height;
      assert g.stride * (g.height - 1) == (g.height - 1) * g.stride;
    }
  }

  method RequiredStorage(g: Grid) returns (required: nat)
    requires g.height > 0 && Steps(g.height - 1, g.stride) + g.width <= SIZE_MAX
    ensures required == Steps(g.height - 1, g.stride) + g.width
  {
    var rows := Steps(g.height - 1, g.stride);
    required := Wrapped(Wrapped(rows) + g.width);
  }

  method CheckGrid(n: nat, g: Grid) returns (r: Result<nat, SurfaceError>)
    requires n <= SIZE_MAX
    ensures r.Success? <==> FitsGrid(n, Some(g))
    ensures r.Success? ==> r.value == LogicalCount(n, Some(g))
    ensures r.Failure? ==> GridFault(n, g) == Some(r.error)
  {
    if g.width == 0 || g.height == 0 {
      return Failure(EmptyGrid);
    }
    if g.stride < g.width {
      return Failure(ShortStride);
    }
    GuardIsExact(g);
    if g.height - 1 > (SIZE_MAX - g.width) / g.stride {
      return Failure(GridOverflow);
    }
    var required := RequiredStorage(g);
    if n != required {
      return Failure(GridStorage);
    }
    LogicalFitsStorage(n, Some(g));
    r := Success(Wrapped(g.width * g.height));
  }

  /** size_t arithmetic. */
  function Wrapped(x: nat): (w: nat)
    ensures x <= SIZE_MAX ==> w == x
  {
    if x <= SIZE_MAX then x else x % (SIZE_MAX + 1)
  }

  method CheckIndex<P>(s: Surface<P>, finite: P -> bool, index: nat) returns (error: Option<SurfaceError>)
    requires WellFormed(s) && index < |s.points|
    ensures error == IndexFault(s, finite, index)
    ensures error.None? <==> PointOk(s, finite, index)
  {
    if s.valid != [] && s.valid[index] > 1 {
      return Some(MaskElement);
    }
    if ValidAt(s, index) && !finite(s.points[index]) {
      return Some(PointNotFinite);
    }
    if ValidAt(s, index) && s.normals != [] && !finite(s.normals[index]) {
      return Some(NormalNotFinite);
    }
    return None;
  }

  /** Later points do not change what the first bad one reports. */
  lemma {:induction false} FaultStays<P>(s: Surface<P>, finite: P -> bool, m: nat, n: nat)
    requires WellFormed(s) && m <= n <= LogicalCount(|s.points|, s.grid) && PointsFault(s, finite, m).Some?
    ensures PointsFault(s, finite, n) == PointsFault(s, finite, m)
    decreases n
  {
    if m < n {
      FaultStays(s, finite, m, n - 1);
    }
  }

  /** validate_surface_data accepts exactly the surfaces that satisfy the contract. */
  method ValidateSurfaceData<P(==)>(s: Surface<P>, finite: P -> bool) returns (r: Result<nat, SurfaceError>)
    requires |s.points| <= SIZE_MAX
    ensures r.Success? <==> IsSurface(s, finite)
    ensures r.Failure? ==> SurfaceFault(s, finite) == Some(r.error)
    ensures r.Success? ==> r.value == LogicalCount(|s.points|, s.grid)
  {
    if s.points == [] {
      return Failure(NoPoints);
    }
    if s.normals != [] && |s.normals| != |s.points| {
      return Failure(NormalsSize);
    }
    if s.valid != [] && |s.valid| != |s.points| {
      return Failure(MaskSize);
    }
    var logicalSize := |s.points|;
    if s.grid.Some? {
      var checked := CheckGrid(|s.points|, s.grid.value);
      if checked.Failure? {
        return checked;
      }
      logicalSize := checked.value;
    }
    assert WellFormed(s);
    var order := ForEachLogicalIndex(|s.points|, s.grid);
    for k := 0 to |order|
      invariant PointsFault(s, finite, k) == None
    {
      StorageInRange(|s.points|, s.grid, k);
      var error := CheckIndex(s, finite, order[k]);
      if error.Some? {
        FaultStays(s, finite, k + 1, |order|);
        return Failure(error.value);
      }
    }
    r := Success(logicalSize);
  }
}
