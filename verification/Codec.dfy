/**
  The point-cloud byte codec of src/backends/pcl/pcl_io_backend.cpp. A float is its four bytes; which
  ones are finite is given.
 */
module Codec {
  import opened Basics
  import opened Surfaces

  datatype Float = Float(a: byte, b: byte, c: byte, d: byte)

  datatype Vec = Vec(x: Float, y: Float, z: Float)

  function FloatBytes(f: Float): (s: seq<byte>)
    ensures |s| == 4
  {
    [f.a, f.b, f.c, f.d]
  }

  function VecBytes(v: Vec): (s: seq<byte>)
    ensures |s| == 12
  {
    FloatBytes(v.x) + FloatBytes(v.y) + FloatBytes(v.z)
  }

  predicate Finite(finite: Float -> bool, v: Vec) {
    finite(v.x) && finite(v.y) && finite(v.z)
  }

  function FiniteVec(finite: Float -> bool): Vec -> bool {
    (v: Vec) => Finite(finite, v)
  }

  // ----- clouds -----

  datatype FieldName = X | Y | Z | NormalX | NormalY | NormalZ | Valid | Other(name: string)

  datatype FieldType = Float32 | UInt8 | OtherType

  datatype Field = Field(name: FieldName, offset: nat, kind: FieldType, count: nat)

  datatype Cloud = Cloud(fields: seq<Field>, width: uint32, height: uint32, pointStep: uint32, rowStep: uint32, data: seq<byte>)

  /** The first field of that name. */
  function FindField(fields: seq<Field>, name: FieldName): (f: Option<Field>)
    ensures f.Some? ==> f.value in fields && f.value.name == name
    ensures f.None? <==> forall i :: 0 <= i < |fields| ==> fields[i].name != name
  {
    if fields == [] then None
    else if fields[0].name == name then Some(fields[0])
    else FindField(fields[1..], name)
  }

  predicate IsFloatScalar(f: Option<Field>) {
    f.Some? && f.value.count == 1 && f.value.kind == Float32
  }

  function StorageOffset(cloud: Cloud, k: nat): nat {
    if cloud.width == 0 then 0 else Steps(k / cloud.width, cloud.rowStep) + Steps(k % cloud.width, cloud.pointStep)
  }

  // ----- records -----

  function MaskAt(s: Surface<Vec>, index: nat): byte
    requires s.valid != [] ==> index < |s.valid| && s.valid[index] < 0x100
  {
    if s.valid == [] then 1 else s.valid[index]
  }

  ghost predicate Encodable(s: Surface<Vec>) {
    WellFormed(s) && |s.points| <= SIZE_MAX && forall i :: 0 <= i < |s.valid| ==> s.valid[i] < 0x100
  }

  function StepOf(s: Surface<Vec>): nat {
    if s.normals == [] then 13 else 25
  }

  /** The bytes of the point stored at index: coordinates, normal if any, mask. */
  function Record(s: Surface<Vec>, index: nat): (r: seq<byte>)
    requires index < |s.points| && (s.normals == [] || |s.normals| == |s.points|)
    requires s.valid != [] ==> index < |s.valid| && s.valid[index] < 0x100
    ensures |r| == StepOf(s)
  {
    VecBytes(s.points[index]) + (if s.normals == [] then [] else VecBytes(s.normals[index])) + [MaskAt(s, index)]
  }

  /** n records end to end. */
  function Chain(record: nat -> seq<byte>, n: nat): seq<byte> {
    if n == 0 then [] else Chain(record, n - 1) + record(n - 1)
  }

  predicate Uniform(record: nat -> seq<byte>, n: nat, step: nat) {
    forall k: nat :: k < n ==> |record(k)| == step
  }

  /** The record of the k-th logical point. */
  function RecordOf(s: Surface<Vec>): nat -> seq<byte> {
    (k: nat) =>
      var index := StorageIndex(s.grid, k);
      if index < |s.points| && (s.normals == [] || |s.normals| == |s.points|)
         && (s.valid != [] ==> index < |s.valid| && s.valid[index] < 0x100) then Record(s, index)
      else []
  }

  lemma InStorage(s: Surface<Vec>)
    requires WellFormed(s)
    ensures forall k: nat :: k < Logical(s) ==> StorageIndex(s.grid, k) < |s.points|
  {
    forall k: nat | k < Logical(s)
      ensures StorageIndex(s.grid, k) < |s.points|
    {
      StorageInRange(|s.points|, s.grid, k);
    }
  }

  lemma RecordsUniform(s: Surface<Vec>)
    requires Encodable(s)
    ensures Uniform(RecordOf(s), Logical(s), StepOf(s))
    ensures forall k: nat :: k < Logical(s) ==> StorageIndex(s.grid, k) < |s.points| && RecordOf(s)(k) == Record(s, StorageIndex(s.grid, k))
  {
    InStorage(s);
  }

  lemma {:induction false} ChainLength(record: nat -> seq<byte>, n: nat, step: nat)
    requires Uniform(record, n, step)
    ensures |Chain(record, n)| == n * step
  {
    if n > 0 {
      ChainLength(record, n - 1, step);
      RecordPlaces(0, n, step);
    }
  }

  function FieldsFor(normals: bool): seq<Field> {
    [Field(X, 0, Float32, 1), Field(Y, 4, Float32, 1), Field(Z, 8, Float32, 1)]
    + if normals then [Field(NormalX, 12, Float32, 1), Field(NormalY, 16, Float32, 1), Field(NormalZ, 20, Float32, 1),
                       Field(Valid, 24, UInt8, 1)]
      else [Field(Valid, 12, UInt8, 1)]
  }

  /** The width the source would like to store: a grid's, or all points. */
  function WidthOf(s: Surface<Vec>): nat {
    if s.grid.Some? then s.grid.value.width else |s.points|
  }

  function HeightOf(s: Surface<Vec>): nat {
    if s.grid.Some? then s.grid.value.height else 1
  }

  /** A row of points fits the 32-bit fields. */
  predicate Fits(s: Surface<Vec>) {
    WidthOf(s) * StepOf(s) <= UINT32_MAX
  }

  function Truncated(x: nat): uint32 {
    x % (UINT32_MAX + 1)
  }

  /** A row of the width that is stored fits the 32-bit row step. */
  predicate Unwrapped(s: Surface<Vec>) {
    Truncated(WidthOf(s)) * StepOf(s) <= UINT32_MAX
  }

  lemma FitsMeans(s: Surface<Vec>)
    ensures Fits(s) <==> Unwrapped(s) && WidthOf(s) <= UINT32_MAX
  {
    TruncatedBound(WidthOf(s));
    MulMonotone(1, StepOf(s), WidthOf(s));
  }

  // ----- encoding -----

  function Patched(s: seq<byte>, at: nat, bytes: seq<byte>): (r: seq<byte>)
    requires at + |bytes| <= |s|
    ensures |r| == |s|
  {
    s[..at] + bytes + s[at + |bytes|..]
  }

  lemma PatchedByte(s: seq<byte>, at: nat, bytes: seq<byte>, i: nat)
    requires at + |bytes| <= |s| && i < |bytes|
    ensures Patched(s, at, bytes[..i])[at + i := bytes[i]] == Patched(s, at, bytes[..i + 1])
  {
  }

  /** memcpy of a value's bytes. */
  method WriteBytes(data: array<byte>, at: nat, bytes: seq<byte>)
    requires at + |bytes| <= data.Length
    modifies data
    ensures data[..] == Patched(old(data[..]), at, bytes)
  {
    for i := 0 to |bytes|
      invariant data[..] == Patched(old(data[..]), at, bytes[..i])
    {
      PatchedByte(old(data[..]), at, bytes, i);
      ghost var before := data[..];
      data[at + i] := bytes[i];
      assert data[..] == before[at + i := bytes[i]];
    }
    assert bytes[..|bytes|] == bytes;
  }

  lemma PatchedNext(s: seq<byte>, at: nat, a: seq<byte>, b: seq<byte>)
    requires at + |a| + |b| <= |s|
    ensures Patched(Patched(s, at, a), at + |a|, b) == Patched(s, at, a + b)
  {
  }

  /** A patch beyond another may be written first. */
  lemma PatchedSwap(s: seq<byte>, at: nat, a: seq<byte>, b: seq<byte>)
    requires at + |a| + |b| <= |s|
    ensures Patched(Patched(s, at + |a|, b), at, a) == Patched(s, at, a + b)
  {
  }

  method WriteVec(data: array<byte>, at: nat, v: Vec)
    requires at + 12 <= data.Length
    modifies data
    ensures data[..] == Patched(old(data[..]), at, VecBytes(v))
  {
    ghost var s := data[..];
    WriteBytes(data, at, FloatBytes(v.x));
    WriteBytes(data, at + 4, FloatBytes(v.y));
    PatchedNext(s, at, FloatBytes(v.x), FloatBytes(v.y));
    WriteBytes(data, at + 8, FloatBytes(v.z));
    PatchedNext(s, at, FloatBytes(v.x) + FloatBytes(v.y), FloatBytes(v.z));
  }

  /** The field writes for one point: the mask goes before the normal. */
  method WriteRecord(data: array<byte>, at: nat, s: Surface<Vec>, index: nat)
    requires Encodable(s) && index < |s.points| && at + StepOf(s) <= data.Length
    modifies data
    ensures data[..] == Patched(old(data[..]), at, Record(s, index))
  {
    ghost var before := data[..];
    var mask := MaskAt(s, index);
    WriteVec(data, at, s.points[index]);
    if s.normals == [] {
      WriteBytes(data, at + 12, [mask]);
      PlainRecord(before, at, VecBytes(s.points[index]), mask);
    } else {
      WriteBytes(data, at + 24, [mask]);
      WriteVec(data, at + 12, s.normals[index]);
      NormalRecord(before, at, VecBytes(s.points[index]), VecBytes(s.normals[index]), mask);
    }
  }

  lemma PlainRecord(before: seq<byte>, at: nat, p: seq<byte>, mask: byte)
    requires |p| == 12 && at + 13 <= |before|
    ensures Patched(Patched(before, at, p), at + 12, [mask]) == Patched(before, at, p + [] + [mask])
  {
    PatchedNext(before, at, p, [mask]);
    assert p + [] == p;
  }

  lemma NormalRecord(before: seq<byte>, at: nat, p: seq<byte>, n: seq<byte>, mask: byte)
    requires |p| == 12 && |n| == 12 && at + 25 <= |before|
    ensures Patched(Patched(Patched(before, at, p), at + 24, [mask]), at + 12, n) == Patched(before, at, p + n + [mask])
  {
    PatchedSwap(Patched(before, at, p), at + 12, n, [mask]);
    PatchedNext(before, at, p, n + [mask]);
    assert p + n + [mask] == p + (n + [mask]);
  }

  lemma OffsetBound(k: nat, width: nat, step: nat, rowStep: nat)
    requires width > 0 && rowStep <= width * step
    ensures (k / width) * rowStep + (k % width) * step <= k * step
    ensures rowStep == width * step ==> (k / width) * rowStep + (k % width) * step == k * step
  {
    var q, r := k / width, k % width;
    assert k == q * width + r;
    MulMonotone(rowStep, width * step, q);
    assert q * (width * step) + r * step == (q * width + r) * step;
    assert rowStep * q == q * rowStep && (width * step) * q == q * (width * step);
  }

  lemma AppendRecord(before: seq<byte>, at: nat, done: seq<byte>, record: seq<byte>)
    requires at + |record| <= |before| && before[..at] == done
    ensures Patched(before, at, record)[..at + |record|] == done + record
  {
  }

  /** The header of an encoded cloud. */
  predicate HeaderOf(cloud: Cloud, s: Surface<Vec>) {
    && cloud.fields == FieldsFor(s.normals != [])
    && cloud.width == Truncated(WidthOf(s)) && cloud.height == HeightOf(s)
    && cloud.pointStep == StepOf(s) && cloud.rowStep == Truncated(StepOf(s) * cloud.width)
    && |cloud.data| == Logical(s) * StepOf(s)
  }

  /** The offset of a record and the room behind it. */
  lemma RecordRoom(s: Surface<Vec>, header: Cloud, k: nat)
    requires HeaderLike(header, s) && k < Logical(s)
    ensures StorageOffset(header, k) + StepOf(s) <= Logical(s) * StepOf(s)
    ensures Unwrapped(s) ==> StorageOffset(header, k) == k * StepOf(s)
    ensures (k + 1) * StepOf(s) == k * StepOf(s) + StepOf(s)
  {
    RowStepBound(s, StepOf(s) * header.width);
    OffsetBound(k, header.width, StepOf(s), header.rowStep);
    MulStep(k, Logical(s), StepOf(s));
  }

  predicate HeaderLike(header: Cloud, s: Surface<Vec>) {
    && header.width == Truncated(WidthOf(s)) > 0
    && header.pointStep == StepOf(s) && header.rowStep == Truncated(StepOf(s) * header.width)
  }

  ghost predicate Chained(data: seq<byte>, record: nat -> seq<byte>, k: nat, step: nat) {
    k * step <= |data| && data[..k * step] == Chain(record, k)
  }

  lemma NextRecord(before: seq<byte>, after: seq<byte>, record: nat -> seq<byte>, k: nat, step: nat, at: nat)
    requires Chained(before, record, k, step) && |record(k)| == step
    requires at == k * step && at + step == (k + 1) * step && at + step <= |before|
    requires after == Patched(before, at, record(k))
    ensures Chained(after, record, k + 1, step)
  {
    AppendRecord(before, at, Chain(record, k), record(k));
  }

  method EncodePoints(s: Surface<Vec>, header: Cloud, order: seq<nat>) returns (bytes: seq<byte>)
    requires Encodable(s) && HeaderLike(header, s) && |order| == Logical(s)
    requires forall k :: 0 <= k < |order| ==> order[k] == StorageIndex(s.grid, k)
    ensures |bytes| == Logical(s) * StepOf(s)
    ensures Unwrapped(s) ==> bytes == Chain(RecordOf(s), Logical(s))
  {
    RecordsUniform(s);
    var step := StepOf(s);
    var data := new byte[|order| * step](_ => 0);
    ghost var record := RecordOf(s);
    for k := 0 to |order|
      invariant Unwrapped(s) ==> Chained(data[..], record, k, step)
    {
      ghost var before := data[..];
      RecordRoom(s, header, k);
      WriteRecord(data, StorageOffset(header, k), s, order[k]);
      if Unwrapped(s) {
        NextRecord(before, data[..], record, k, step, StorageOffset(header, k));
      }
    }
    bytes := data[..];
    assert bytes[..|order| * step] == bytes;
  }

  /** Why a surface that was saved is not loaded: the source divides by the stored width, or refuses the file. */
  datatype TripError = DividesByZero | Refused(error: DecodeError)

  /** encode_cloud: the stored width is truncated, and the row step wraps, without notice. */
  method EncodeCloud(s: Surface<Vec>) returns (r: Result<Cloud, TripError>)
    requires Encodable(s)
    ensures r == Failure(DividesByZero) <==> Truncated(WidthOf(s)) == 0
    ensures r.Failure? ==> r.error == DividesByZero
    ensures r.Success? ==> HeaderOf(r.value, s) && (Unwrapped(s) ==> r.value.data == Chain(RecordOf(s), Logical(s)))
  {
    var step, width := StepOf(s), Truncated(WidthOf(s));
    var height := if s.grid.Some? then s.grid.value.height else 1;
    var header := Cloud(FieldsFor(s.normals != []), width, height, step, Truncated(step * width), []);
    var order := ForEachLogicalIndex(|s.points|, s.grid);
    if width == 0 {
      return Failure(DividesByZero);
    }
    var bytes := EncodePoints(s, header, order);
    r := Success(header.(data := bytes));
  }

  /** The 32-bit row step never exceeds the true one, and equals it for rows that fit. */
  lemma RowStepBound(s: Surface<Vec>, row: nat)
    requires row == StepOf(s) * Truncated(WidthOf(s))
    ensures Truncated(row) <= row
    ensures Unwrapped(s) ==> Truncated(row) == row == Truncated(WidthOf(s)) * StepOf(s)
  {
    TruncatedBound(row);
  }

  lemma TruncatedBound(x: nat)
    ensures Truncated(x) <= x && (x <= UINT32_MAX ==> Truncated(x) == x) && (x > UINT32_MAX ==> Truncated(x) < x)
  {
  }

  // ----- decoding -----

  datatype DecodeError = NeedsXyz | PartialNormals | MaskType | Inconsistent | MaskValue | MarkedNonFinite | Rejected

  /** What is wrong with the fields that were found. */
  function FoundError(x: Option<Field>, y: Option<Field>, z: Option<Field>, nx: bool, ny: bool, nz: bool, mask: Option<Field>): Option<DecodeError> {
    if !IsFloatScalar(x) || !IsFloatScalar(y) || !IsFloatScalar(z) then Some(NeedsXyz)
    else if (nx || ny || nz) && !(nx && ny && nz) then Some(PartialNormals)
    else if mask.Some? && (mask.value.count != 1 || mask.value.kind != UInt8) then Some(MaskType)
    else None
  }

  /** The first part of validate_fields: which fields there are. */
  function FieldsError(fields: seq<Field>): Option<DecodeError> {
    FoundError(FindField(fields, X), FindField(fields, Y), FindField(fields, Z), IsFloatScalar(FindField(fields, NormalX)),
               IsFloatScalar(FindField(fields, NormalY)), IsFloatScalar(FindField(fields, NormalZ)), FindField(fields, Valid))
  }

  /** Which complaint about the fields comes first: no x, y or z as a lone float; a normal as lone floats in part; a mask
      that is not a lone byte. */
  lemma FieldsErrorMeans(fields: seq<Field>)
    ensures var e := FieldsError(fields);
      var x, y, z := FindField(fields, X), FindField(fields, Y), FindField(fields, Z);
      var points := IsFloatScalar(x) && IsFloatScalar(y) && IsFloatScalar(z);
      var nx, ny, nz := IsFloatScalar(FindField(fields, NormalX)), IsFloatScalar(FindField(fields, NormalY)), IsFloatScalar(FindField(fields, NormalZ));
      var mask := FindField(fields, Valid);
      && (e == Some(NeedsXyz) <==> !points)
      && (e == Some(PartialNormals) <==> points && !(nx == ny == nz))
      && (e == Some(MaskType) <==> points && nx == ny == nz && mask.Some? && !(mask.value.count == 1 && mask.value.kind == UInt8))
      && (e == None || e == Some(NeedsXyz) || e == Some(PartialNormals) || e == Some(MaskType))
  {
  }

  /** The second part: whether the storage holds width x height points. */
  predicate StorageOk(cloud: Cloud) {
    var minimumRow := cloud.width * cloud.pointStep;
    var minimumStorage := if cloud.height == 0 then 0 else (cloud.height - 1) * cloud.rowStep + minimumRow;
    cloud.width * cloud.height != 0 && cloud.pointStep != 0 && cloud.rowStep >= minimumRow && |cloud.data| >= minimumStorage
  }

  /** validate_fields. */
  function FieldError(cloud: Cloud): Option<DecodeError> {
    var e := FieldsError(cloud.fields);
    if e.Some? then e else if StorageOk(cloud) then None else Some(Inconsistent)
  }

  /** The same check in size_t arithmetic, as the source computes it. */
  predicate StorageOk64(cloud: Cloud) {
    var minimumRow := Wrapped(Steps(cloud.width, cloud.pointStep));
    var minimumStorage := if cloud.height == 0 then 0 else Wrapped(Wrapped(Steps(cloud.height - 1, cloud.rowStep)) + minimumRow);
    Wrapped(Steps(cloud.width, cloud.height)) != 0 && cloud.pointStep != 0 && cloud.rowStep >= minimumRow && |cloud.data| >= minimumStorage
  }

  lemma ProductFits(a: uint32, b: uint32)
    ensures a * b <= UINT32_MAX * UINT32_MAX <= SIZE_MAX
  {
    MulMonotone(a, UINT32_MAX, b);
    MulMonotone(b, UINT32_MAX, UINT32_MAX);
  }

  /** No product of the check wraps unless the row step has refused the cloud already. */
  lemma StorageDoesNotWrap(cloud: Cloud)
    ensures StorageOk64(cloud) <==> StorageOk(cloud)
  {
    ProductFits(cloud.width, cloud.height);
    ProductFits(cloud.width, cloud.pointStep);
    if cloud.height > 0 && cloud.rowStep >= cloud.width * cloud.pointStep {
      ProductFits(cloud.height - 1, cloud.rowStep);
      ProductFits(cloud.height, cloud.rowStep);
      assert (cloud.height - 1) * cloud.rowStep + cloud.rowStep == cloud.height * cloud.rowStep;
    }
  }

  datatype Triple = Triple(x: nat, y: nat, z: nat)

  /** Where the fields of a point are. */
  datatype Layout = Layout(point: Triple, normal: Option<Triple>, mask: Option<nat>)

  function LayoutOf(fields: seq<Field>): Layout
    requires FieldsError(fields).None?
  {
    var mask, normal := FindField(fields, Valid), FindField(fields, NormalX);
    Layout(Triple(FindField(fields, X).value.offset, FindField(fields, Y).value.offset, FindField(fields, Z).value.offset),
           if normal.Some? && FindField(fields, NormalY).Some? && FindField(fields, NormalZ).Some? then
             Some(Triple(normal.value.offset, FindField(fields, NormalY).value.offset, FindField(fields, NormalZ).value.offset))
           else None,
           if mask.Some? then Some(mask.value.offset) else None)
  }

  // ----- what is read -----

  predicate FloatsInside(t: Triple, base: nat, size: nat) {
    base + t.x + 4 <= size && base + t.y + 4 <= size && base + t.z + 4 <= size
  }

  /** The reads of the point that begins at base stay inside the data. */
  predicate PointInside(l: Layout, base: nat, size: nat) {
    && FloatsInside(l.point, base, size)
    && (l.normal.Some? ==> FloatsInside(l.normal.value, base, size))
    && (l.mask.Some? ==> base + l.mask.value < size)
  }

  /** What decode_cloud takes for granted of a cloud that validate_fields accepts: with a normal_x come the other
      two, and the fields of the last point lie inside the data. */
  predicate Readable(cloud: Cloud)
    requires FieldError(cloud).None?
  {
    && (FindField(cloud.fields, NormalX).Some? ==> FindField(cloud.fields, NormalY).Some? && FindField(cloud.fields, NormalZ).Some?)
    && PointInside(LayoutOf(cloud.fields), StorageOffset(cloud, cloud.width * cloud.height - 1), |cloud.data|)
  }

  lemma OffsetsAscend(cloud: Cloud, j: nat, k: nat)
    requires StorageOk(cloud) && j <= k
    ensures StorageOffset(cloud, j) <= StorageOffset(cloud, k)
  {
    PositiveFactors(cloud.width, cloud.height);
    if j < k {
      PlacesAscend(j, k, cloud.width, cloud.pointStep, cloud.rowStep);
    }
  }

  lemma PositiveFactors(a: nat, b: nat)
    requires a * b != 0
    ensures a > 0 && b > 0
  {
  }

  lemma PlacesAscend(j: nat, k: nat, width: nat, step: nat, row: nat)
    requires j < k && width > 0 && row >= width * step
    ensures Steps(j / width, row) + Steps(j % width, step) <= Steps(k / width, row) + Steps(k % width, step)
  {
    DivisionMonotone(j, k, width);
    RowOffsets(j / width, j % width, k / width, k % width, width, step, row);
  }

  lemma RowOffsets(a: nat, c: nat, b: nat, d: nat, width: nat, step: nat, row: nat)
    requires a <= b && c < width && (a == b ==> c <= d) && row >= width * step
    ensures Steps(a, row) + Steps(c, step) <= Steps(b, row) + Steps(d, step)
  {
    if a < b {
      MulStep(a, b, row);
      MulMonotone(c, width, step);
    } else {
      MulMonotone(c, d, step);
    }
  }

  /** Exactly then does every read of every point stay inside the data. */
  lemma ReadableIsExact(cloud: Cloud)
    requires FieldError(cloud).None?
    requires FindField(cloud.fields, NormalX).Some? ==> FindField(cloud.fields, NormalY).Some? && FindField(cloud.fields, NormalZ).Some?
    ensures Readable(cloud) <==>
      forall k: nat :: k < cloud.width * cloud.height ==> PointInside(LayoutOf(cloud.fields), StorageOffset(cloud, k), |cloud.data|)
  {
    var last := cloud.width * cloud.height - 1;
    if Readable(cloud) {
      forall k: nat | k <= last
        ensures PointInside(LayoutOf(cloud.fields), StorageOffset(cloud, k), |cloud.data|)
      {
        OffsetsAscend(cloud, k, last);
      }
    }
  }

  /** The fields lie inside a point. */
  predicate FieldsInside(l: Layout, step: nat) {
    PointInside(l, 0, step)
  }

  /** Fields inside a point are inside the data. */
  lemma InsideIsReadable(cloud: Cloud)
    requires FieldError(cloud).None? && FieldsInside(LayoutOf(cloud.fields), cloud.pointStep)
    requires FindField(cloud.fields, NormalX).Some? ==> FindField(cloud.fields, NormalY).Some? && FindField(cloud.fields, NormalZ).Some?
    ensures Readable(cloud)
  {
    LastPoint(cloud);
  }

  lemma LastPoint(cloud: Cloud)
    requires StorageOk(cloud)
    ensures StorageOffset(cloud, cloud.width * cloud.height - 1) + cloud.pointStep <= |cloud.data|
  {
    var w: nat, h: nat, last := cloud.width, cloud.height, cloud.width * cloud.height - 1;
    assert (h - 1) * w + w == w * h && last == (h - 1) * w + (w - 1);
    DivModOf(h - 1, w - 1, w);
    assert Steps(w - 1, cloud.pointStep) + cloud.pointStep == w * cloud.pointStep;
  }

  lemma FindBehind(f: Field, rest: seq<Field>, name: FieldName)
    ensures FindField([f] + rest, name) == if f.name == name then Some(f) else FindField(rest, name)
  {
    assert ([f] + rest)[1..] == rest;
  }

  lemma FindOnly(f: Field, name: FieldName)
    ensures FindField([f], name) == if f.name == name then Some(f) else None
  {
    assert [f][1..] == [];
  }

  /** A cloud of one point with the given fields. */
  function OnePoint(extra: seq<Field>): Cloud {
    Cloud([Field(X, 0, Float32, 1), Field(Y, 4, Float32, 1), Field(Z, 8, Float32, 1)] + extra, 1, 1, 12, 12, seq(12, _ => 0))
  }

  function OnePointField(f: Field, name: FieldName): Option<Field> {
    if name == X then Some(Field(X, 0, Float32, 1))
    else if name == Y then Some(Field(Y, 4, Float32, 1))
    else if name == Z then Some(Field(Z, 8, Float32, 1))
    else if name == f.name then Some(f)
    else None
  }

  lemma OnePointFound(f: Field, name: FieldName)
    ensures FindField(OnePoint([f]).fields, name) == OnePointField(f, name)
  {
    var x, y, z := Field(X, 0, Float32, 1), Field(Y, 4, Float32, 1), Field(Z, 8, Float32, 1);
    assert OnePoint([f]).fields == [x] + ([y] + ([z] + [f]));
    FindBehind(x, [y] + ([z] + [f]), name);
    FindBehind(y, [z] + [f], name);
    FindBehind(z, [f], name);
    FindOnly(f, name);
  }

  /** The check does not imply it: a lone normal_x of bytes passes, and so does a mask behind the data. */
  lemma AcceptedUnreadable()
    ensures var lone := OnePoint([Field(NormalX, 0, UInt8, 1)]); FieldError(lone).None? && !Readable(lone)
    ensures var behind := OnePoint([Field(Valid, 12, UInt8, 1)]); FieldError(behind).None? && !Readable(behind)
  {
    var f, g := Field(NormalX, 0, UInt8, 1), Field(Valid, 12, UInt8, 1);
    AcceptedOnePoint(f);
    LoneUnreadable(OnePoint([f]));
    AcceptedOnePoint(g);
    BehindUnreadable(OnePoint([g]));
  }

  lemma LoneUnreadable(cloud: Cloud)
    requires FieldError(cloud).None? && FindField(cloud.fields, NormalX).Some? && FindField(cloud.fields, NormalY).None?
    ensures !Readable(cloud)
  {
  }

  lemma BehindUnreadable(cloud: Cloud)
    requires FieldError(cloud).None? && FindField(cloud.fields, Valid).Some? && FindField(cloud.fields, Valid).value.offset >= |cloud.data|
    ensures !Readable(cloud)
  {
  }

  lemma AcceptedOnePoint(f: Field)
    requires f.kind == UInt8 && f.count == 1 && (f.name == NormalX || f.name == Valid)
    ensures FieldError(OnePoint([f])).None? && FindField(OnePoint([f]).fields, f.name) == Some(f)
    ensures FindField(OnePoint([f]).fields, NormalY).None?
  {
    OnePointFound(f, X);
    OnePointFound(f, Y);
    OnePointFound(f, Z);
    OnePointFound(f, NormalX);
    OnePointFound(f, NormalY);
    OnePointFound(f, NormalZ);
    OnePointFound(f, Valid);
    OnePointFields(f);
    OnePointStorage([f]);
  }

  lemma OnePointStorage(extra: seq<Field>)
    ensures StorageOk(OnePoint(extra))
  {
  }

  lemma OnePointFields(f: Field)
    requires f.kind == UInt8 && f.count == 1 && (f.name == NormalX || f.name == Valid)
    ensures OnePointField(f, f.name) == Some(f) && OnePointField(f, NormalY).None?
    ensures FoundError(OnePointField(f, X), OnePointField(f, Y), OnePointField(f, Z), IsFloatScalar(OnePointField(f, NormalX)),
                       IsFloatScalar(OnePointField(f, NormalY)), IsFloatScalar(OnePointField(f, NormalZ)), OnePointField(f, Valid)).None?
  {
  }

  function FloatAt(data: seq<byte>, at: nat): Float {
    if at + 4 <= |data| then Float(data[at], data[at + 1], data[at + 2], data[at + 3]) else Float(0, 0, 0, 0)
  }

  function VecAt(data: seq<byte>, base: nat, t: Triple): Vec {
    Vec(FloatAt(data, base + t.x), FloatAt(data, base + t.y), FloatAt(data, base + t.z))
  }

  /** One decoded point; no mask means valid when finite. */
  datatype Sample = Sample(point: Vec, normal: Option<Vec>, mask: byte)

  predicate FiniteSample(finite: Float -> bool, s: Sample) {
    Finite(finite, s.point) && (s.normal.Some? ==> Finite(finite, s.normal.value))
  }

  function SampleAt(cloud: Cloud, l: Layout, finite: Float -> bool, k: nat): Sample {
    var base := StorageOffset(cloud, k);
    var bare := Sample(VecAt(cloud.data, base, l.point), if l.normal.Some? then Some(VecAt(cloud.data, base, l.normal.value)) else None, 0);
    bare.(mask := if l.mask.Some? then (if base + l.mask.value < |cloud.data| then cloud.data[base + l.mask.value] else 0)
                  else if FiniteSample(finite, bare) then 1 else 0)
  }

  /** What makes the decoder refuse a point. */
  predicate GoodSample(l: Layout, finite: Float -> bool, s: Sample) {
    s.mask <= 1 && (s.mask == 1 ==> FiniteSample(finite, s))
  }

  function PointOf(): Sample -> Vec {
    (s: Sample) => s.point
  }

  function NormalOf(): Sample -> Vec {
    (s: Sample) => if s.normal.Some? then s.normal.value else s.point
  }

  function MaskOf(): Sample -> nat {
    (s: Sample) => s.mask
  }

  predicate AllValid(mask: seq<nat>) {
    forall k :: 0 <= k < |mask| ==> mask[k] == 1
  }

  ghost predicate AllGood(l: Layout, finite: Float -> bool, samples: seq<Sample>) {
    forall k :: 0 <= k < |samples| ==> GoodSample(l, finite, samples[k])
  }

  ghost function Samples(cloud: Cloud, finite: Float -> bool): (samples: seq<Sample>)
    requires FieldError(cloud).None?
    ensures |samples| == cloud.width * cloud.height
    ensures forall k :: 0 <= k < |samples| ==> samples[k] == SampleAt(cloud, LayoutOf(cloud.fields), finite, k)
  {
    seq(cloud.width * cloud.height, k requires 0 <= k < cloud.width * cloud.height && FieldError(cloud).None? =>
      SampleAt(cloud, LayoutOf(cloud.fields), finite, k))
  }

  /** What is said of a refused point: its mask is no flag, or it is marked valid without being finite. */
  ghost predicate Blames(error: DecodeError, finite: Float -> bool, s: Sample) {
    if s.mask > 1 then error == MaskValue else s.mask == 1 && !FiniteSample(finite, s) && error == MarkedNonFinite
  }

  /** The error is that of the first refused point. */
  ghost predicate BlamesFirst(error: DecodeError, l: Layout, finite: Float -> bool, samples: seq<Sample>) {
    exists k :: 0 <= k < |samples| && AllGood(l, finite, samples[..k]) && Blames(error, finite, samples[k])
  }

  method CheckSample(l: Layout, finite: Float -> bool, sample: Sample) returns (error: Option<DecodeError>)
    ensures error.None? <==> GoodSample(l, finite, sample)
    ensures error.Some? ==> Blames(error.value, finite, sample)
  {
    if sample.mask > 1 {
      return Some(MaskValue);
    }
    if sample.mask == 1 && !FiniteSample(finite, sample) {
      return Some(MarkedNonFinite);
    }
    return None;
  }

  lemma MapLast<T, U>(f: T -> U, s: seq<T>, x: T)
    ensures Map(f, s + [x]) == Map(f, s) + [f(x)]
  {
  }

  /** The loop over all points, given how each is read. */
  method GatherPoints(n: nat, read: nat -> Sample, l: Layout, finite: Float -> bool, ghost samples: seq<Sample>)
    returns (error: Option<DecodeError>, points: seq<Vec>, normals: seq<Vec>, mask: seq<nat>, derived: bool)
    requires |samples| == n && forall k :: 0 <= k < n ==> samples[k] == read(k)
    ensures error.None? <==> AllGood(l, finite, samples)
    ensures error.Some? ==> BlamesFirst(error.value, l, finite, samples)
    ensures error.None? ==> points == Map(PointOf(), samples) && mask == Map(MaskOf(), samples) && (derived <==> !AllValid(mask))
    ensures error.None? ==> normals == if l.normal.Some? then Map(NormalOf(), samples) else []
  {
    error, points, normals, mask, derived := None, [], [], [], false;
    for k := 0 to n
      invariant AllGood(l, finite, samples[..k])
      invariant points == Map(PointOf(), samples[..k]) && mask == Map(MaskOf(), samples[..k])
      invariant normals == if l.normal.Some? then Map(NormalOf(), samples[..k]) else []
      invariant error.None? && (derived <==> !AllValid(mask))
    {
      var sample := read(k);
      error := CheckSample(l, finite, sample);
      if error.Some? {
        assert !GoodSample(l, finite, samples[k]);
        return;
      }
      assert samples[..k + 1] == samples[..k] + [sample];
      MapLast(PointOf(), samples[..k], sample);
      MapLast(NormalOf(), samples[..k], sample);
      MapLast(MaskOf(), samples[..k], sample);
      points := points + [sample.point];
      if l.normal.Some? {
        normals := normals + [NormalOf()(sample)];
      }
      ValidLast(mask, sample.mask);
      mask := mask + [sample.mask];
      derived := derived || sample.mask != 1;
    }
    assert samples[..n] == samples;
  }

  lemma ValidLast(mask: seq<nat>, m: nat)
    ensures AllValid(mask + [m]) <==> AllValid(mask) && m == 1
  {
    var s := mask + [m];
    if AllValid(s) {
      assert forall k :: 0 <= k < |mask| ==> mask[k] == s[k];
      assert s[|mask|] == m;
    }
  }

  function GridFor(width: uint32, height: uint32): Option<Grid> {
    if height > 1 then Some(Grid(width, height, width)) else None
  }

  /** The surface made of decoded samples. */
  ghost function Assembled(l: Layout, width: uint32, height: uint32, samples: seq<Sample>): Surface<Vec> {
    var mask := Map(MaskOf(), samples);
    Surface(Map(PointOf(), samples), if l.normal.Some? then Map(NormalOf(), samples) else [],
            if l.mask.None? && AllValid(mask) then [] else mask, GridFor(width, height))
  }

  /** The surface the decoder delivers. */
  ghost function Delivered(cloud: Cloud, finite: Float -> bool): Surface<Vec>
    requires FieldError(cloud).None?
  {
    Assembled(LayoutOf(cloud.fields), cloud.width, cloud.height, Samples(cloud, finite))
  }

  function VecOf(data: seq<byte>, x: nat, y: nat, z: nat): Vec {
    Vec(FloatAt(data, x), FloatAt(data, y), FloatAt(data, z))
  }

  /** Point k of a surface is what the bytes hold from `at` on, each number at the offset of its own field. Without a mask
      field a point is valid when it is finite, and a mask of ones is dropped. */
  ghost predicate IsReadAt(data: seq<byte>, l: Layout, finite: Float -> bool, s: Surface<Vec>, k: nat, at: nat) {
    && k < |s.points| && s.points[k] == VecOf(data, at + l.point.x, at + l.point.y, at + l.point.z)
    && (match l.normal
        case None => s.normals == []
        case Some(n) => k < |s.normals| && s.normals[k] == VecOf(data, at + n.x, at + n.y, at + n.z))
    && match l.mask
       case Some(mask) => k < |s.valid| && at + mask < |data| && s.valid[k] == data[at + mask]
       case None =>
         var proper := Finite(finite, s.points[k]) && (s.normals != [] ==> k < |s.normals| && Finite(finite, s.normals[k]));
         if s.valid == [] then proper else k < |s.valid| && s.valid[k] == if proper then 1 else 0
  }

  lemma AssembledAt(l: Layout, width: uint32, height: uint32, samples: seq<Sample>, k: nat)
    requires k < |samples| && Matching(l, samples)
    ensures var s := Assembled(l, width, height, samples);
      && |s.points| == |samples| && s.points[k] == samples[k].point
      && (if l.normal.None? then s.normals == [] else |s.normals| == |samples| && samples[k].normal == Some(s.normals[k]))
      && (if l.mask.None? && s.valid == [] then samples[k].mask == 1 else |s.valid| == |samples| && s.valid[k] == samples[k].mask)
  {
    assert Map(MaskOf(), samples)[k] == samples[k].mask;
  }

  /** Each delivered point is what the cloud holds at its place. */
  lemma DeliveredMeans(cloud: Cloud, finite: Float -> bool, k: nat)
    requires FieldError(cloud).None? && Readable(cloud) && k < |Samples(cloud, finite)|
    ensures IsReadAt(cloud.data, LayoutOf(cloud.fields), finite, Delivered(cloud, finite), k, StorageOffset(cloud, k))
  {
    ReadableIsExact(cloud);
    var l, samples := LayoutOf(cloud.fields), Samples(cloud, finite);
    AssembledAt(l, cloud.width, cloud.height, samples, k);
    SampleIsRead(cloud, l, finite, k, Delivered(cloud, finite));
  }

  lemma SampleIsRead(cloud: Cloud, l: Layout, finite: Float -> bool, k: nat, s: Surface<Vec>)
    requires PointInside(l, StorageOffset(cloud, k), |cloud.data|)
    requires var sample := SampleAt(cloud, l, finite, k);
      && k < |s.points| && s.points[k] == sample.point
      && (if l.normal.None? then s.normals == [] else k < |s.normals| && sample.normal == Some(s.normals[k]))
      && (if l.mask.None? && s.valid == [] then sample.mask == 1 else k < |s.valid| && s.valid[k] == sample.mask)
    ensures IsReadAt(cloud.data, l, finite, s, k, StorageOffset(cloud, k))
  {
  }

  /** The place of the point in some row and column. */
  lemma PlaceMeans(cloud: Cloud, row: nat, column: nat)
    requires column < cloud.width
    ensures StorageOffset(cloud, row * cloud.width + column) == row * cloud.rowStep + column * cloud.pointStep
  {
    DivModOf(row, column, cloud.width);
  }

  function Reader(cloud: Cloud, l: Layout, finite: Float -> bool): nat -> Sample {
    (k: nat) => SampleAt(cloud, l, finite, k)
  }

  /** decode_cloud. The final surface check never refuses what got that far. */
  method DecodeCloud(cloud: Cloud, finite: Float -> bool) returns (r: Result<Surface<Vec>, DecodeError>)
    requires FieldError(cloud).None? ==> Readable(cloud)
    ensures FieldError(cloud).Some? ==> r == Failure(FieldError(cloud).value)
    ensures FieldError(cloud).None? ==> (r.Success? <==> AllGood(LayoutOf(cloud.fields), finite, Samples(cloud, finite)))
    ensures FieldError(cloud).None? && r.Failure? ==> BlamesFirst(r.error, LayoutOf(cloud.fields), finite, Samples(cloud, finite))
    ensures r.Success? ==> FieldError(cloud).None? && r.value == Delivered(cloud, finite) && IsSurface(r.value, FiniteVec(finite))
  {
    var invalid := FieldError(cloud);
    if invalid.Some? {
      return Failure(invalid.value);
    }
    var l := LayoutOf(cloud.fields);
    ProductFits(cloud.width, cloud.height);
    r := Assemble(l, cloud.width, cloud.height, Reader(cloud, l, finite), finite, Samples(cloud, finite));
  }

  ghost predicate Matching(l: Layout, samples: seq<Sample>) {
    forall k :: 0 <= k < |samples| ==> samples[k].normal.Some? == l.normal.Some?
  }

  /** decode_cloud once the fields have been found. */
  method Assemble(l: Layout, width: uint32, height: uint32, read: nat -> Sample, finite: Float -> bool, ghost samples: seq<Sample>)
    returns (r: Result<Surface<Vec>, DecodeError>)
    requires |samples| == width * height > 0 && |samples| <= SIZE_MAX && Matching(l, samples)
    requires forall k :: 0 <= k < |samples| ==> samples[k] == read(k)
    ensures r.Success? <==> AllGood(l, finite, samples)
    ensures r.Failure? ==> BlamesFirst(r.error, l, finite, samples)
    ensures r.Success? ==> r.value == Assembled(l, width, height, samples) && IsSurface(r.value, FiniteVec(finite))
  {
    var error, points, normals, mask, derived := GatherPoints(width * height, read, l, finite, samples);
    if error.Some? {
      return Failure(error.value);
    }
    if l.mask.None? && !derived {
      mask := [];
    }
    var surface := Surface(points, normals, mask, GridFor(width, height));
    AssembledIsSurface(l, width, height, samples, finite);
    var checked := ValidateSurfaceData(surface, FiniteVec(finite));
    if checked.Failure? {
      return Failure(Rejected);
    }
    r := Success(surface);
  }

  lemma AssembledIsSurface(l: Layout, width: uint32, height: uint32, samples: seq<Sample>, finite: Float -> bool)
    requires |samples| == width * height > 0 && Matching(l, samples) && AllGood(l, finite, samples)
    ensures IsSurface(Assembled(l, width, height, samples), FiniteVec(finite))
  {
    var s := Assembled(l, width, height, samples);
    assert s.points != [];
    forall k: nat | k < |samples|
      ensures PointOk(s, FiniteVec(finite), k)
    {
      assert GoodSample(l, finite, samples[k]);
    }
    PlainGrid(width, height);
    forall k: nat | k < LogicalCount(|s.points|, s.grid)
      ensures StorageIndex(s.grid, k) == k < |samples|
    {
      PlainIndex(width, k);
    }
  }

  lemma PlainGrid(width: nat, height: nat)
    requires width * height > 0
    ensures height > 0 && width > 0 && (height - 1) * width + width == width * height
  {
  }

  lemma PlainIndex(width: nat, k: nat)
    requires width > 0
    ensures (k / width) * width + k % width == k
  {
  }

  // ----- the round trip -----

  /** The same logical points, without padding; always with a mask, and a grid only when it has several rows. */
  function Canonical(s: Surface<Vec>): Surface<Vec>
    requires Encodable(s)
  {
    InStorage(s);
    var n := Logical(s);
    Surface(seq(n, k requires 0 <= k < n && StorageIndex(s.grid, k) < |s.points| => s.points[StorageIndex(s.grid, k)]),
            if s.normals == [] then []
            else seq(n, k requires 0 <= k < n && StorageIndex(s.grid, k) < |s.normals| => s.normals[StorageIndex(s.grid, k)]),
            seq(n, k requires 0 <= k < n && (s.valid == [] || StorageIndex(s.grid, k) < |s.valid|) =>
              if s.valid == [] then 1 else s.valid[StorageIndex(s.grid, k)]),
            if HeightOf(s) > 1 then Some(Grid(s.grid.value.width, s.grid.value.height, s.grid.value.width)) else None)
  }

  lemma RecordPlaces(k: nat, n: nat, step: nat)
    requires k < n
    ensures k * step + step <= n * step && n * step == (n - 1) * step + step
    ensures k < n - 1 ==> k * step + step <= (n - 1) * step
  {
    MulStep(k, n, step);
    if k < n - 1 {
      MulStep(k, n - 1, step);
    }
  }

  /** The k-th record of the encoded bytes. */
  ghost predicate HasRecord(data: seq<byte>, at: nat, record: seq<byte>) {
    at + |record| <= |data| && data[at..at + |record|] == record
  }

  lemma RecordStays(front: seq<byte>, last: seq<byte>, at: nat, record: seq<byte>)
    requires HasRecord(front, at, record)
    ensures HasRecord(front + last, at, record)
  {
    assert (front + last)[at..at + |record|] == front[at..at + |record|];
  }

  lemma LastRecord(front: seq<byte>, last: seq<byte>)
    ensures HasRecord(front + last, |front|, last)
  {
    assert (front + last)[|front|..|front| + |last|] == last;
  }

  /** Looking up one record in a chain. */
  lemma {:induction false} RecordAt(record: nat -> seq<byte>, n: nat, step: nat, k: nat)
    requires Uniform(record, n, step) && k < n
    ensures HasRecord(Chain(record, n), k * step, record(k))
  {
    var front, last := Chain(record, n - 1), record(n - 1);
    ChainLength(record, n - 1, step);
    RecordPlaces(k, n, step);
    if k < n - 1 {
      RecordAt(record, n - 1, step, k);
      RecordStays(front, last, k * step, record(k));
    } else {
      LastRecord(front, last);
    }
  }

  // ----- reading a record back -----

  lemma FloatBack(data: seq<byte>, at: nat, f: Float)
    requires HasRecord(data, at, FloatBytes(f))
    ensures FloatAt(data, at) == f
  {
    var s := data[at..at + 4];
    assert s[0] == data[at] && s[1] == data[at + 1] && s[2] == data[at + 2] && s[3] == data[at + 3];
  }

  lemma PartOf(data: seq<byte>, at: nat, a: seq<byte>, b: seq<byte>)
    requires HasRecord(data, at, a + b)
    ensures HasRecord(data, at, a) && HasRecord(data, at + |a|, b)
  {
    var s := data[at..at + |a + b|];
    assert data[at..at + |a|] == s[..|a|] == a;
    assert data[at + |a|..at + |a| + |b|] == s[|a|..] == b;
  }

  lemma VecBack(data: seq<byte>, at: nat, v: Vec)
    requires HasRecord(data, at, VecBytes(v))
    ensures FloatAt(data, at) == v.x && FloatAt(data, at + 4) == v.y && FloatAt(data, at + 8) == v.z
  {
    PartOf(data, at, FloatBytes(v.x) + FloatBytes(v.y), FloatBytes(v.z));
    PartOf(data, at, FloatBytes(v.x), FloatBytes(v.y));
    FloatBack(data, at, v.x);
    FloatBack(data, at + 4, v.y);
    FloatBack(data, at + 8, v.z);
  }

  /** The layout the encoder's fields give the decoder. */
  function LayoutFor(normals: bool): Layout {
    Layout(Triple(0, 4, 8), if normals then Some(Triple(12, 16, 20)) else None, Some(if normals then 24 else 12))
  }

  /** What a search among the encoder's fields finds. */
  function FoundField(normals: bool, name: FieldName): Option<Field> {
    match name
    case X => Some(Field(X, 0, Float32, 1))
    case Y => Some(Field(Y, 4, Float32, 1))
    case Z => Some(Field(Z, 8, Float32, 1))
    case NormalX => if normals then Some(Field(NormalX, 12, Float32, 1)) else None
    case NormalY => if normals then Some(Field(NormalY, 16, Float32, 1)) else None
    case NormalZ => if normals then Some(Field(NormalZ, 20, Float32, 1)) else None
    case Valid => Some(Field(Valid, if normals then 24 else 12, UInt8, 1))
    case Other(_) => None
  }

  lemma FieldFound(normals: bool, name: FieldName)
    ensures FindField(FieldsFor(normals), name) == FoundField(normals, name)
  {
    var x, y, z := Field(X, 0, Float32, 1), Field(Y, 4, Float32, 1), Field(Z, 8, Float32, 1);
    if normals {
      var a, b, c := Field(NormalX, 12, Float32, 1), Field(NormalY, 16, Float32, 1), Field(NormalZ, 20, Float32, 1);
      var v := [Field(Valid, 24, UInt8, 1)];
      assert FieldsFor(normals) == [x] + ([y] + ([z] + ([a] + ([b] + ([c] + v)))));
      FindBehind(x, [y] + ([z] + ([a] + ([b] + ([c] + v)))), name);
      FindBehind(y, [z] + ([a] + ([b] + ([c] + v))), name);
      FindBehind(z, [a] + ([b] + ([c] + v)), name);
      FindBehind(a, [b] + ([c] + v), name);
      FindBehind(b, [c] + v, name);
      FindBehind(c, v, name);
      FindOnly(v[0], name);
    } else {
      var v := [Field(Valid, 12, UInt8, 1)];
      assert FieldsFor(normals) == [x] + ([y] + ([z] + v));
      FindBehind(x, [y] + ([z] + v), name);
      FindBehind(y, [z] + v, name);
      FindBehind(z, v, name);
      FindOnly(v[0], name);
    }
  }

  /** What was loaded so far is readable. */
  lemma EncodedReadable(cloud: Cloud, s: Surface<Vec>)
    requires cloud.fields == FieldsFor(s.normals != []) && cloud.pointStep == StepOf(s) && FieldError(cloud).None?
    ensures Readable(cloud)
  {
    EncodedFields(s.normals != []);
    FieldFound(s.normals != [], NormalX);
    FieldFound(s.normals != [], NormalY);
    FieldFound(s.normals != [], NormalZ);
    InsideIsReadable(cloud);
  }

  /** The decoder reads the encoder's fields with the encoder's layout. */
  lemma EncodedFields(normals: bool)
    ensures FieldsError(FieldsFor(normals)).None? && LayoutOf(FieldsFor(normals)) == LayoutFor(normals)
  {
    FieldFound(normals, X);
    FieldFound(normals, Y);
    FieldFound(normals, Z);
    FieldFound(normals, NormalX);
    FieldFound(normals, NormalY);
    FieldFound(normals, NormalZ);
    FieldFound(normals, Valid);
  }

  /** The cloud's first bytes are the records of a surface, row by row. */
  ghost predicate Carries(cloud: Cloud, s: Surface<Vec>) {
    && cloud.fields == FieldsFor(s.normals != []) && cloud.width == WidthOf(s) && cloud.height == HeightOf(s)
    && cloud.pointStep == StepOf(s) && cloud.rowStep == Steps(WidthOf(s), StepOf(s))
    && Chained(cloud.data, RecordOf(s), Logical(s), StepOf(s))
  }

  /** The storage of such a cloud is accepted. */
  lemma CarriedStorage(cloud: Cloud, s: Surface<Vec>)
    requires Encodable(s) && Carries(cloud, s)
    ensures StorageOk(cloud) && cloud.width * cloud.height == Logical(s)
  {
    LogicalIsProduct(s, Logical(s));
    AmpleStorage(cloud, WidthOf(s), HeightOf(s), StepOf(s), Logical(s));
  }

  lemma LogicalIsProduct(s: Surface<Vec>, n: nat)
    requires WellFormed(s) && n == Logical(s)
    ensures WidthOf(s) > 0 && HeightOf(s) > 0 && n == Steps(WidthOf(s), HeightOf(s))
  {
  }

  lemma AmpleStorage(cloud: Cloud, w: nat, h: nat, step: nat, n: nat)
    requires cloud.width == w > 0 && cloud.height == h > 0 && cloud.pointStep == step > 0 && cloud.rowStep == w * step
    requires n == Steps(w, h) && n * step <= |cloud.data|
    ensures StorageOk(cloud) && cloud.width * cloud.height == n
  {
    StorageNats(w, h, step);
  }

  lemma StorageNats(w: nat, h: nat, step: nat)
    requires w > 0 && h > 0
    ensures w * h > 0 && (h - 1) * (w * step) + w * step == (w * h) * step
  {
    MulMonotone(1, w, h);
    assert (h - 1) * (w * step) + w * step == h * (w * step);
    assert h * (w * step) == (w * h) * step;
  }

  /** A row step that wrapped is refused. */
  lemma WrappedIsRefused(cloud: Cloud, s: Surface<Vec>)
    requires HeaderOf(cloud, s) && !Unwrapped(s)
    ensures FieldError(cloud) == Some(Inconsistent)
  {
    EncodedFields(s.normals != []);
    TruncatedBound(StepOf(s) * cloud.width);
    assert StepOf(s) * cloud.width == cloud.width * cloud.pointStep;
  }

  /** When the rows do not fit, the row step has wrapped, and the decoder sees it; unless the width itself
      was truncated, and then points are missing. */
  lemma Wrapped32(cloud: Cloud, s: Surface<Vec>)
    requires Encodable(s) && HeaderOf(cloud, s) && !Fits(s)
    ensures FieldError(cloud) == Some(Inconsistent) || cloud.width * cloud.height < Logical(s)
  {
    if !Unwrapped(s) {
      WrappedIsRefused(cloud, s);
    } else {
      FitsMeans(s);
      MissingPoints(cloud, s);
    }
  }

  /** Only a surface without a grid can be wider than 32 bits. */
  lemma MissingPoints(cloud: Cloud, s: Surface<Vec>)
    requires cloud.width == Truncated(WidthOf(s)) && cloud.height == HeightOf(s) && WidthOf(s) > UINT32_MAX
    ensures cloud.width * cloud.height < Logical(s)
  {
    TruncatedBound(WidthOf(s));
    assert s.grid.None?;
  }

  /** What a saved surface still says: of a surface whose width was truncated, the first points. */
  function Loaded(s: Surface<Vec>): Surface<Vec>
    requires WellFormed(s)
  {
    if WidthOf(s) <= UINT32_MAX then s
    else
      TruncatedBound(WidthOf(s));
      var w := Truncated(WidthOf(s));
      Surface(s.points[..w], if s.normals == [] then [] else s.normals[..w], if s.valid == [] then [] else s.valid[..w], None)
  }

  lemma LoadedShape(s: Surface<Vec>)
    requires Encodable(s) && Truncated(WidthOf(s)) > 0
    ensures var t := Loaded(s);
      && Encodable(t) && StepOf(t) == StepOf(s) && (t.normals == [] <==> s.normals == []) && t.grid == s.grid
      && WidthOf(t) == Truncated(WidthOf(s)) && HeightOf(t) == HeightOf(s) && Logical(t) <= Logical(s)
  {
    TruncatedBound(WidthOf(s));
  }

  lemma LoadedRecords(s: Surface<Vec>)
    requires Encodable(s) && Truncated(WidthOf(s)) > 0
    ensures forall k: nat :: k < Logical(Loaded(s)) ==> RecordOf(Loaded(s))(k) == RecordOf(s)(k)
  {
    LoadedShape(s);
  }

  lemma {:induction false} ChainPrefix(record: nat -> seq<byte>, m: nat, n: nat, step: nat)
    requires m <= n && Uniform(record, n, step)
    ensures Chained(Chain(record, n), record, m, step)
  {
    ChainLength(record, m, step);
    ChainLength(record, n, step);
    MulMonotone(m, n, step);
    if m < n {
      ChainPrefix(record, m, n - 1, step);
    } else {
      assert Chain(record, n)[..n * step] == Chain(record, n);
    }
  }

  lemma {:induction false} ChainsAgree(a: nat -> seq<byte>, b: nat -> seq<byte>, n: nat)
    requires forall k: nat :: k < n ==> a(k) == b(k)
    ensures Chain(a, n) == Chain(b, n)
  {
    if n > 0 {
      ChainsAgree(a, b, n - 1);
    }
  }

  lemma EncodedCarries(cloud: Cloud, s: Surface<Vec>)
    requires Encodable(s) && HeaderOf(cloud, s) && cloud.width > 0 && Unwrapped(s)
    requires cloud.data == Chain(RecordOf(s), Logical(s))
    ensures Encodable(Loaded(s)) && Carries(cloud, Loaded(s))
  {
    LoadedShape(s);
    LoadedRowStep(StepOf(s), cloud.width, cloud.rowStep);
    LoadedChain(cloud.data, s);
  }

  lemma LoadedRowStep(step: nat, width: nat, row: nat)
    requires width * step <= UINT32_MAX && row == Truncated(step * width)
    ensures row == Steps(width, step)
  {
    TruncatedBound(step * width);
  }

  lemma LoadedChain(data: seq<byte>, s: Surface<Vec>)
    requires Encodable(s) && Truncated(WidthOf(s)) > 0 && data == Chain(RecordOf(s), Logical(s))
    ensures Chained(data, RecordOf(Loaded(s)), Logical(Loaded(s)), StepOf(s))
  {
    LoadedShape(s);
    RecordsUniform(s);
    LoadedRecords(s);
    ChainFront(data, RecordOf(s), RecordOf(Loaded(s)), Logical(Loaded(s)), Logical(s), StepOf(s));
  }

  lemma ChainFront(data: seq<byte>, a: nat -> seq<byte>, b: nat -> seq<byte>, m: nat, n: nat, step: nat)
    requires m <= n && Uniform(a, n, step) && data == Chain(a, n) && forall k: nat :: k < m ==> b(k) == a(k)
    ensures Chained(data, b, m, step)
  {
    ChainPrefix(a, m, n, step);
    ChainsAgree(b, a, m);
  }

  lemma LoadedIsSurface(s: Surface<Vec>, finite: Float -> bool)
    requires Encodable(s) && IsSurface(s, FiniteVec(finite)) && Truncated(WidthOf(s)) > 0
    ensures IsSurface(Loaded(s), FiniteVec(finite))
  {
    LoadedShape(s);
    var t := Loaded(s);
    InStorage(t);
    forall k: nat | k < Logical(t)
      ensures PointOk(t, FiniteVec(finite), StorageIndex(t.grid, k))
    {
      assert PointOk(s, FiniteVec(finite), StorageIndex(s.grid, k));
    }
  }

  /** The sample of a stored point. */
  function StoredSample(s: Surface<Vec>, index: nat): Sample
    requires Encodable(s) && index < |s.points|
  {
    Sample(s.points[index], if s.normals == [] then None else Some(s.normals[index]), MaskAt(s, index))
  }

  lemma MaskBack(data: seq<byte>, at: nat, m: byte)
    requires HasRecord(data, at, [m])
    ensures at < |data| && data[at] == m
  {
    assert data[at..at + 1][0] == data[at];
  }

  lemma RecordBytes(data: seq<byte>, s: Surface<Vec>, i: nat, at: nat)
    requires Encodable(s) && i < |s.points| && HasRecord(data, at, Record(s, i))
    ensures FloatAt(data, at) == s.points[i].x && FloatAt(data, at + 4) == s.points[i].y && FloatAt(data, at + 8) == s.points[i].z
    ensures s.normals != [] ==>
      FloatAt(data, at + 12) == s.normals[i].x && FloatAt(data, at + 16) == s.normals[i].y && FloatAt(data, at + 20) == s.normals[i].z
    ensures at + StepOf(s) <= |data| && data[at + StepOf(s) - 1] == MaskAt(s, i)
  {
    var p, m := VecBytes(s.points[i]), [MaskAt(s, i)];
    if s.normals == [] {
      assert Record(s, i) == p + m;
      PartOf(data, at, p, m);
    } else {
      var n := VecBytes(s.normals[i]);
      assert Record(s, i) == p + (n + m);
      PartOf(data, at, p, n + m);
      PartOf(data, at + 12, n, m);
      VecBack(data, at + 12, s.normals[i]);
    }
    VecBack(data, at, s.points[i]);
    MaskBack(data, at + StepOf(s) - 1, MaskAt(s, i));
  }

  /** Reading a record gives back what was stored. */
  lemma SampleBack(cloud: Cloud, s: Surface<Vec>, finite: Float -> bool, k: nat, index: nat, base: nat)
    requires Encodable(s) && index < |s.points| && base == StorageOffset(cloud, k)
    requires HasRecord(cloud.data, base, Record(s, index))
    ensures SampleAt(cloud, LayoutFor(s.normals != []), finite, k) == StoredSample(s, index)
  {
    RecordBytes(cloud.data, s, index, base);
  }

  /** The bytes of the k-th logical point in an encoded cloud: coordinates, normal if any, and a mask that is 1 where the
      surface has none, in records of 13 or 25 bytes. */
  lemma EncodedBytes(cloud: Cloud, s: Surface<Vec>, k: nat)
    requires Encodable(s) && cloud.data == Chain(RecordOf(s), Logical(s)) && k < Logical(s)
    ensures var i, data, at := StorageIndex(s.grid, k), cloud.data, Steps(k, if s.normals == [] then 13 else 25);
      && i < |s.points| && at + (if s.normals == [] then 13 else 25) <= |data|
      && FloatAt(data, at) == s.points[i].x && FloatAt(data, at + 4) == s.points[i].y && FloatAt(data, at + 8) == s.points[i].z
      && (s.normals != [] ==>
            FloatAt(data, at + 12) == s.normals[i].x && FloatAt(data, at + 16) == s.normals[i].y && FloatAt(data, at + 20) == s.normals[i].z)
      && data[at + if s.normals == [] then 12 else 24] == if s.valid == [] then 1 else s.valid[i]
  {
    RecordsUniform(s);
    RecordAt(RecordOf(s), Logical(s), StepOf(s), k);
    RecordBytes(cloud.data, s, StorageIndex(s.grid, k), Steps(k, StepOf(s)));
  }

  lemma CarriedOffset(cloud: Cloud, s: Surface<Vec>, k: nat)
    requires Encodable(s) && Carries(cloud, s)
    ensures StorageOffset(cloud, k) == Steps(k, StepOf(s))
  {
    CarriedStorage(cloud, s);
    OffsetBound(k, cloud.width, StepOf(s), cloud.rowStep);
  }

  lemma RecordInFront(data: seq<byte>, front: seq<byte>, at: nat, record: seq<byte>)
    requires |front| <= |data| && data[..|front|] == front && HasRecord(front, at, record)
    ensures HasRecord(data, at, record)
  {
    assert data[at..at + |record|] == front[at..at + |record|];
  }

  lemma CarriedRecord(data: seq<byte>, s: Surface<Vec>, k: nat)
    requires Encodable(s) && Chained(data, RecordOf(s), Logical(s), StepOf(s)) && k < Logical(s)
    ensures StorageIndex(s.grid, k) < |s.points|
    ensures HasRecord(data, Steps(k, StepOf(s)), Record(s, StorageIndex(s.grid, k)))
  {
    RecordsUniform(s);
    RecordAt(RecordOf(s), Logical(s), StepOf(s), k);
    ChainLength(RecordOf(s), Logical(s), StepOf(s));
    RecordInFront(data, Chain(RecordOf(s), Logical(s)), Steps(k, StepOf(s)), Record(s, StorageIndex(s.grid, k)));
  }

  lemma SamplesBack(cloud: Cloud, s: Surface<Vec>, finite: Float -> bool, k: nat)
    requires Encodable(s) && Carries(cloud, s) && k < Logical(s)
    ensures StorageIndex(s.grid, k) < |s.points|
    ensures SampleAt(cloud, LayoutFor(s.normals != []), finite, k) == StoredSample(s, StorageIndex(s.grid, k))
  {
    CarriedOffset(cloud, s, k);
    CarriedRecord(cloud.data, s, k);
    SampleBack(cloud, s, finite, k, StorageIndex(s.grid, k), Steps(k, StepOf(s)));
  }

  lemma StoredIsGood(s: Surface<Vec>, finite: Float -> bool, k: nat)
    requires Encodable(s) && IsSurface(s, FiniteVec(finite)) && k < Logical(s) && StorageIndex(s.grid, k) < |s.points|
    ensures GoodSample(LayoutFor(s.normals != []), finite, StoredSample(s, StorageIndex(s.grid, k)))
  {
    assert PointOk(s, FiniteVec(finite), StorageIndex(s.grid, k));
  }

  /** The samples are those of the logical points, in order. */
  ghost predicate AreStored(samples: seq<Sample>, s: Surface<Vec>)
    requires Encodable(s)
  {
    |samples| == Logical(s) &&
    forall k: nat :: k < Logical(s) ==> StorageIndex(s.grid, k) < |s.points| && samples[k] == StoredSample(s, StorageIndex(s.grid, k))
  }

  lemma StoredPoints(samples: seq<Sample>, s: Surface<Vec>)
    requires Encodable(s) && AreStored(samples, s)
    ensures Map(PointOf(), samples) == Canonical(s).points
  {
  }

  lemma StoredNormals(samples: seq<Sample>, s: Surface<Vec>)
    requires Encodable(s) && AreStored(samples, s) && s.normals != []
    ensures Map(NormalOf(), samples) == Canonical(s).normals
  {
  }

  lemma StoredMask(samples: seq<Sample>, s: Surface<Vec>)
    requires Encodable(s) && AreStored(samples, s)
    ensures Map(MaskOf(), samples) == Canonical(s).valid
  {
  }

  lemma DecodedSamples(cloud: Cloud, s: Surface<Vec>, finite: Float -> bool)
    requires Encodable(s) && IsSurface(s, FiniteVec(finite)) && Carries(cloud, s)
    ensures FieldError(cloud).None? && LayoutOf(cloud.fields) == LayoutFor(s.normals != [])
    ensures AreStored(Samples(cloud, finite), s) && AllGood(LayoutOf(cloud.fields), finite, Samples(cloud, finite))
  {
    CarriedStorage(cloud, s);
    EncodedFields(s.normals != []);
    var samples := Samples(cloud, finite);
    forall k: nat | k < Logical(s)
      ensures StorageIndex(s.grid, k) < |s.points| && samples[k] == StoredSample(s, StorageIndex(s.grid, k))
      ensures GoodSample(LayoutFor(s.normals != []), finite, samples[k])
    {
      SamplesBack(cloud, s, finite, k);
      StoredIsGood(s, finite, k);
    }
  }

  lemma CanonicalFrom(cloud: Cloud, s: Surface<Vec>, finite: Float -> bool)
    requires Encodable(s) && cloud.height == HeightOf(s) && cloud.width == WidthOf(s)
    requires FieldError(cloud).None? && LayoutOf(cloud.fields) == LayoutFor(s.normals != [])
    requires AreStored(Samples(cloud, finite), s)
    ensures Delivered(cloud, finite) == Canonical(s)
  {
    StoredPoints(Samples(cloud, finite), s);
    if s.normals != [] {
      StoredNormals(Samples(cloud, finite), s);
    }
    StoredMask(Samples(cloud, finite), s);
  }

  /** Decoding a cloud that carries a surface delivers its canonical form. */
  lemma DeliveredIsCanonical(cloud: Cloud, s: Surface<Vec>, finite: Float -> bool)
    requires Encodable(s) && IsSurface(s, FiniteVec(finite)) && Carries(cloud, s)
    ensures FieldError(cloud).None? && AllGood(LayoutOf(cloud.fields), finite, Samples(cloud, finite))
    ensures Delivered(cloud, finite) == Canonical(s)
  {
    DecodedSamples(cloud, s, finite);
    CanonicalFrom(cloud, s, finite);
  }

  /** How saving and loading ends, by the stored width: it is zero; its row wraps; or what fits is loaded. */
  function TripOutcome(s: Surface<Vec>): Result<Surface<Vec>, TripError>
    requires Encodable(s)
  {
    if Truncated(WidthOf(s)) == 0 then Failure(DividesByZero)
    else if !Unwrapped(s) then Failure(Refused(Inconsistent))
    else
      LoadedShape(s);
      Success(Canonical(Loaded(s)))
  }

  /** The canonical surface comes back exactly when a row fits the 32-bit fields. */
  lemma TripIsExactWhen(s: Surface<Vec>)
    requires Encodable(s)
    ensures TripOutcome(s) == Success(Canonical(s)) <==> Fits(s)
  {
    FitsMeans(s);
    CanonicalShape(s);
    if Truncated(WidthOf(s)) > 0 {
      LoadedShape(s);
      CanonicalShape(Loaded(s));
      TruncatedBound(WidthOf(s));
    } else if Fits(s) {
      StoredWidth(s);
    }
  }

  /** Saving and loading. */
  method RoundTrip(s: Surface<Vec>, finite: Float -> bool) returns (r: Result<Surface<Vec>, TripError>)
    requires Encodable(s) && IsSurface(s, FiniteVec(finite))
    ensures r == TripOutcome(s)
    ensures r == Success(Canonical(s)) <==> Fits(s)
  {
    TripIsExactWhen(s);
    var encoded := EncodeCloud(s);
    if encoded.Failure? {
      return Failure(encoded.error);
    }
    var cloud := encoded.value;
    if Unwrapped(s) {
      EncodedCarries(cloud, s);
      LoadedIsSurface(s, finite);
      DeliveredIsCanonical(cloud, Loaded(s), finite);
    } else {
      WrappedIsRefused(cloud, s);
    }
    if FieldError(cloud).None? {
      EncodedReadable(cloud, s);
    }
    var decoded := DecodeCloud(cloud, finite);
    if decoded.Failure? {
      return Failure(Refused(decoded.error));
    }
    r := Success(decoded.value);
  }

  /** n points at the origin, without a grid. */
  function Repeated(n: nat): Surface<Vec> {
    var zero := Float(0, 0, 0, 0);
    Surface(seq(n, _ => Vec(zero, zero, zero)), [], [], None)
  }

  lemma RepeatedIsSurface(n: nat, finite: Float -> bool)
    requires 0 < n <= SIZE_MAX && finite(Float(0, 0, 0, 0))
    ensures Encodable(Repeated(n)) && IsSurface(Repeated(n), FiniteVec(finite)) && WidthOf(Repeated(n)) == n && StepOf(Repeated(n)) == 13
  {
  }

  /** All three ways to fail are real: a row beyond 32 bits, a width that becomes zero, and a width of which one
      point is left. */
  lemma TripFails(finite: Float -> bool)
    requires finite(Float(0, 0, 0, 0))
    ensures var s := Repeated(330_382_100);
      Encodable(s) && IsSurface(s, FiniteVec(finite)) && TripOutcome(s) == Failure(Refused(Inconsistent))
    ensures var s := Repeated(0x1_0000_0000);
      Encodable(s) && IsSurface(s, FiniteVec(finite)) && TripOutcome(s) == Failure(DividesByZero)
    ensures var s := Repeated(0x1_0000_0001);
      Encodable(s) && IsSurface(s, FiniteVec(finite)) && TripOutcome(s).Success? && |TripOutcome(s).value.points| == 1
  {
    RepeatedIsSurface(330_382_100, finite);
    RepeatedIsSurface(0x1_0000_0000, finite);
    RepeatedIsSurface(0x1_0000_0001, finite);
    OnePointLeft(Repeated(0x1_0000_0001));
  }

  lemma OnePointLeft(s: Surface<Vec>)
    requires Encodable(s) && s.grid.None? && Truncated(WidthOf(s)) == 1
    ensures TripOutcome(s).Success? && |TripOutcome(s).value.points| == 1
  {
    LoadedShape(s);
  }

  /** Encoding what was loaded gives the same cloud, byte for byte. */
  method EncodeAgain(s: Surface<Vec>, finite: Float -> bool) returns (first: Result<Cloud, TripError>, second: Result<Cloud, TripError>)
    requires Encodable(s) && IsSurface(s, FiniteVec(finite)) && Fits(s)
    ensures first.Success? && first == second
  {
    FitsMeans(s);
    StoredWidth(s);
    first := EncodeCloud(s);
    EncodedCarries(first.value, s);
    DeliveredIsCanonical(first.value, s, finite);
    EncodedReadable(first.value, s);
    var loaded := DecodeCloud(first.value, finite);
    CanonicalShape(s);
    second := EncodeCloud(loaded.value);
    CanonicalRecords(s);
  }

  lemma StoredWidth(s: Surface<Vec>)
    requires Encodable(s) && Fits(s)
    ensures Truncated(WidthOf(s)) == WidthOf(s) > 0
  {
    FitsMeans(s);
    TruncatedBound(WidthOf(s));
  }

  lemma CanonicalShape(s: Surface<Vec>)
    requires Encodable(s)
    ensures var c := Canonical(s);
      && Encodable(c) && Logical(c) == Logical(s) && StepOf(c) == StepOf(s)
      && WidthOf(c) == WidthOf(s) && HeightOf(c) == HeightOf(s) && (c.normals == [] <==> s.normals == [])
  {
    InStorage(s);
    LogicalFitsStorage(|s.points|, s.grid);
    var c, n := Canonical(s), Logical(s);
    if s.grid.Some? {
      var g := s.grid.value;
      PlainGridSize(g.width, g.height);
      if g.height == 1 {
        assert n == g.width;
      }
    }
    assert |c.points| == n > 0;
  }

  lemma PlainGridSize(width: nat, height: nat)
    requires width > 0 && height > 0
    ensures width * height > 0 && (height - 1) * width + width == width * height
  {
    MulMonotone(1, width, height);
  }

  lemma CanonicalIndex(s: Surface<Vec>, k: nat)
    requires Encodable(s) && k < Logical(s)
    ensures StorageIndex(Canonical(s).grid, k) == k
  {
    if Canonical(s).grid.Some? {
      PlainIndex(s.grid.value.width, k);
    }
  }

  lemma CanonicalRecord(s: Surface<Vec>, k: nat)
    requires Encodable(s) && k < Logical(s)
    ensures RecordOf(Canonical(s))(k) == RecordOf(s)(k)
  {
    InStorage(s);
    CanonicalIndex(s, k);
    CanonicalShape(s);
    assert Canonical(s).points[k] == s.points[StorageIndex(s.grid, k)];
  }

  lemma CanonicalRecords(s: Surface<Vec>)
    requires Encodable(s)
    ensures Chain(RecordOf(Canonical(s)), Logical(s)) == Chain(RecordOf(s), Logical(s))
  {
    forall k: nat | k < Logical(s)
      ensures RecordOf(Canonical(s))(k) == RecordOf(s)(k)
    {
      CanonicalRecord(s, k);
    }
    ChainsAgree(RecordOf(Canonical(s)), RecordOf(s), Logical(s));
  }
}
