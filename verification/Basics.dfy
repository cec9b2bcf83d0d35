/** Small value types and facts shared by every module of the model. */
module Basics {

  datatype Option<+T> = None | Some(value: T)

  /** The source's Result<T>: a value or the error it reports. */
  datatype Result<+T, +E> = Success(value: T) | Failure(error: E)

  type byte = x: nat | x < 0x100

  const INT32_MAX: nat := 0x7fff_ffff

  function Min(a: int, b: int): int {
    if a <= b then a else b
  }

  function Max(a: int, b: int): int {
    if a <= b then b else a
  }

  function Abs(x: real): real {
    if x < 0.0 then -x else x
  }

  /** A product as a term of its own. */
  function Times(a: real, b: real): real {
    a * b
  }

  function Minor(a: real, b: real, c: real, d: real): real {
    a * b - c * d
  }

  /** A scalar product. */
  function Dot3(a0: real, a1: real, a2: real, b0: real, b1: real, b2: real): real {
    a0 * b0 + a1 * b1 + a2 * b2
  }

  /** The determinant of the matrix with these columns. */
  function Det(x0: real, x1: real, x2: real, y0: real, y1: real, y2: real, z0: real, z1: real, z2: real): real {
    x0 * (y1 * z2 - z1 * y2) - y0 * (x1 * z2 - z1 * x2) + z0 * (x1 * y2 - y1 * x2)
  }

  lemma OneMore(n: real, v: real)
    ensures Times(n, v) + v == Times(n + 1.0, v)
  {
  }

  lemma QuotientTimes(x: real, n: real)
    requires n > 0.0
    ensures x / n * n == x
  {
  }

  lemma PositiveQuotient(x: real, n: real)
    requires x >= 0.0 && n > 0.0
    ensures x / n >= 0.0 && x / n * n == x
  {
    var q := x / n;
    QuotientTimes(x, n);
    if q < 0.0 {
      NegativeProduct(q, n);
    }
  }

  lemma NegativeProduct(q: real, n: real)
    requires q < 0.0 && n > 0.0
    ensures q * n < 0.0
  {
  }

  /** A fraction of a whole. */
  lemma FractionMeans(part: nat, whole: nat)
    requires part <= whole && whole > 0
    ensures 0.0 <= part as real / whole as real <= 1.0
    ensures Times(part as real / whole as real, whole as real) == part as real
  {
    var q := part as real / whole as real;
    PositiveQuotient(part as real, whole as real);
    if q > 1.0 {
      ProductAbove(q, whole as real);
    }
  }

  lemma ProductAbove(q: real, n: real)
    requires q > 1.0 && n > 0.0
    ensures q * n > n
  {
  }

  /** What is used of a square root. */
  ghost predicate IsRoot(root: real -> real) {
    forall x: real {:trigger root(x)} :: x >= 0.0 ==> root(x) >= 0.0 && root(x) * root(x) == x
  }

  lemma NoRoot(n: real)
    requires n >= 0.0 && n * n == 0.0
    ensures n == 0.0
  {
    if n > 0.0 {
      ZeroProduct(n, n);
    }
  }

  lemma ZeroProduct(q: real, n: real)
    requires n > 0.0 && q * n == 0.0
    ensures q == 0.0
  {
  }

  /** The sum of a sequence of numbers. */
  function Total(values: seq<real>): real {
    if values == [] then 0.0 else Total(values[..|values| - 1]) + values[|values| - 1]
  }

  /** A sum adds up, over one value and over any split. */
  lemma {:induction false} TotalAdds(s: seq<real>, t: seq<real>, x: real)
    ensures Total([]) == 0.0 && Total([x]) == x && Total(s + t) == Total(s) + Total(t)
  {
    assert [x][..0] == [];
    if t == [] {
      assert s + t == s;
    } else {
      var n := |t| - 1;
      TotalAdds(s, t[..n], x);
      assert (s + t)[..|s + t| - 1] == s + t[..n];
    }
  }

  /** The sum of a sequence of integers. */
  function Sum(s: seq<int>): int {
    if s == [] then 0 else Sum(s[..|s| - 1]) + s[|s| - 1]
  }

  /** Replacing one element changes the sum by the difference. */
  lemma {:induction false} SumUpdate(s: seq<int>, i: nat, x: int)
    requires i < |s|
    ensures Sum(s[i := x]) == Sum(s) - s[i] + x
  {
    var n := |s| - 1;
    if i < n {
      SumUpdate(s[..n], i, x);
      assert s[i := x][..n] == s[..n][i := x];
    } else {
      assert s[i := x][..n] == s[..n];
    }
  }

  /** A pointwise bound on two sequences bounds their sums. */
  lemma {:induction false} SumBound(s: seq<int>, t: seq<int>, slack: nat)
    requires |s| == |t|
    requires forall i :: 0 <= i < |s| ==> t[i] <= s[i] + slack
    ensures Sum(t) <= Sum(s) + slack * |s|
  {
    if |s| > 0 {
      var n := |s| - 1;
      SumBound(s[..n], t[..n], slack);
      assert slack * |s| == slack * n + slack;
    }
  }

  lemma {:induction false} SumOfSums(s: seq<int>, t: seq<int>, u: seq<int>)
    requires |s| == |t| == |u|
    requires forall i :: 0 <= i < |s| ==> u[i] == s[i] + t[i]
    ensures Sum(u) == Sum(s) + Sum(t)
  {
    if |s| > 0 {
      var n := |s| - 1;
      SumOfSums(s[..n], t[..n], u[..n]);
    }
  }

  lemma {:induction false} SumNonNegative(s: seq<int>)
    requires forall i :: 0 <= i < |s| ==> s[i] >= 0
    ensures Sum(s) >= 0
  {
    if |s| > 0 {
      SumNonNegative(s[..|s| - 1]);
    }
  }

  /** 0, 1, ..., n - 1. */
  function Indices(n: nat): (s: seq<nat>)
    ensures |s| == n && forall i :: 0 <= i < n ==> s[i] == i
  {
    seq(n, i requires 0 <= i < n => i)
  }

  /** A set holding exactly the integers of [lo, hi) has hi - lo elements. */
  lemma {:induction false} RangeSize(range: set<nat>, lo: nat, hi: nat)
    requires lo <= hi
    requires forall i: nat :: i in range <==> lo <= i < hi
    ensures |range| == hi - lo
    decreases hi
  {
    if lo < hi {
      RangeSize(range - {hi - 1}, lo, hi - 1);
    } else {
      assert range == {};
    }
  }

  lemma SubsetOfSameSize<T>(s: set<T>, t: set<T>)
    requires s <= t && |s| == |t|
    ensures s == t
  {
    assert t == s + (t - s);
    assert |t| == |s| + |t - s|;
  }

  lemma SliceOfSlice<T>(s: seq<T>, a: nat, b: nat, i: nat, j: nat)
    requires a <= i <= j <= b <= |s|
    ensures s[a..b][i - a..j - a] == s[i..j]
  {
    var x, y := s[a..b][i - a..j - a], s[i..j];
    assert forall k :: 0 <= k < |x| ==> x[k] == y[k];
  }

  /** How many elements satisfy p. */
  function Count<T>(s: seq<T>, p: T -> bool): nat {
    if s == [] then 0 else Count(s[..|s| - 1], p) + if p(s[|s| - 1]) then 1 else 0
  }

  lemma {:induction false} CountUpdate<T>(s: seq<T>, i: nat, x: T, p: T -> bool)
    requires i < |s|
    ensures Count(s[i := x], p) == Count(s, p) - (if p(s[i]) then 1 else 0) + (if p(x) then 1 else 0)
  {
    var n := |s| - 1;
    if i < n {
      CountUpdate(s[..n], i, x, p);
      assert s[i := x][..n] == s[..n][i := x];
    } else {
      assert s[i := x][..n] == s[..n];
    }
  }

  lemma {:induction false} CountNone<T>(s: seq<T>, p: T -> bool)
    requires forall i :: 0 <= i < |s| ==> !p(s[i])
    ensures Count(s, p) == 0
  {
    if s != [] {
      CountNone(s[..|s| - 1], p);
    }
  }

  /** As many as there are positions of such elements. */
  lemma {:induction false} CountIsSize<T>(s: seq<T>, p: T -> bool, positions: set<nat>)
    requires forall i: nat :: i in positions <==> i < |s| && p(s[i])
    ensures Count(s, p) == |positions|
  {
    if s == [] {
      assert positions == {};
    } else {
      var n := |s| - 1;
      CountIsSize(s[..n], p, positions - {n});
      assert positions == (positions - {n}) + if p(s[n]) then {n} else {};
    }
  }

  ghost function Elements(s: seq<nat>): set<nat> {
    set c | c in s
  }

  predicate Distinct<T(==)>(ids: seq<T>) {
    forall i, j :: 0 <= i < j < |ids| ==> ids[i] != ids[j]
  }

  /** A sequence without repetitions has as many elements as positions. */
  lemma {:induction false} DistinctSize(ids: seq<nat>)
    requires Distinct(ids)
    ensures |Elements(ids)| == |ids|
  {
    if ids != [] {
      var rest := ids[..|ids| - 1];
      DistinctSize(rest);
      assert Elements(ids) == Elements(rest) + {ids[|ids| - 1]};
    }
  }

  predicate Ascending(ids: seq<nat>) {
    forall i, j :: 0 <= i < j < |ids| ==> ids[i] <= ids[j]
  }

  /** Sorted sequences of the same distinct elements are equal. */
  lemma {:induction false} AscendingIsUnique(a: seq<nat>, b: seq<nat>)
    requires Ascending(a) && Ascending(b) && Distinct(a) && Distinct(b) && Elements(a) == Elements(b)
    ensures a == b
  {
    DistinctSize(a);
    DistinctSize(b);
    if a != [] {
      var n := |a| - 1;
      assert a[n] in Elements(b) && b[n] in Elements(a);
      assert a[n] == b[n];
      forall x
        ensures x in Elements(a[..n]) <==> x in Elements(b[..n])
      {
        assert x in Elements(a[..n]) <==> x in Elements(a) && x != a[n];
        assert x in Elements(b[..n]) <==> x in Elements(b) && x != b[n];
      }
      AscendingIsUnique(a[..n], b[..n]);
      assert a == a[..n] + [a[n]] && b == b[..n] + [b[n]];
    }
  }

  lemma {:induction false} SubsetOfIndices(s: set<nat>, n: nat)
    requires forall x :: x in s ==> x < n
    ensures |s| <= n
  {
    if n > 0 {
      SubsetOfIndices(s - {n - 1}, n - 1);
      if n - 1 in s {
        assert s == (s - {n - 1}) + {n - 1};
      } else {
        assert s == s - {n - 1};
      }
    } else {
      assert s == {};
    }
  }

  lemma {:induction false} CountConcat<T>(s: seq<T>, t: seq<T>, p: T -> bool)
    ensures Count(s + t, p) == Count(s, p) + Count(t, p)
  {
    if t == [] {
      assert s + t == s;
    } else {
      var n := |t| - 1;
      CountConcat(s, t[..n], p);
      assert (s + t)[..|s + t| - 1] == s + t[..n];
    }
  }

  lemma CountRemove<T>(t: seq<T>, j: nat, p: T -> bool)
    requires j < |t|
    ensures Count(t, p) == Count(t[..j] + t[j + 1..], p) + (if p(t[j]) then 1 else 0)
  {
    assert t == t[..j] + [t[j]] + t[j + 1..] && [t[j]][..0] == [];
    CountConcat(t[..j], t[j + 1..], p);
    CountConcat(t[..j] + [t[j]], t[j + 1..], p);
    CountConcat(t[..j], [t[j]], p);
  }

  lemma MultisetRemove<T>(t: seq<T>, j: nat)
    requires j < |t|
    ensures multiset(t[..j] + t[j + 1..]) == multiset(t) - multiset{t[j]}
  {
    assert t == t[..j] + [t[j]] + t[j + 1..];
  }

  /** Counting does not depend on order. */
  lemma {:induction false} CountPermuted<T>(s: seq<T>, t: seq<T>, p: T -> bool)
    requires multiset(s) == multiset(t)
    ensures Count(s, p) == Count(t, p)
  {
    if s == [] {
      assert |multiset(t)| == 0;
    } else {
      var n := |s| - 1;
      assert s[n] in multiset(t);
      var j :| 0 <= j < |t| && t[j] == s[n];
      MultisetRemove(s, n);
      MultisetRemove(t, j);
      assert s[..n] + s[n + 1..] == s[..n];
      CountPermuted(s[..n], t[..j] + t[j + 1..], p);
      CountRemove(t, j, p);
    }
  }

  function Map<T, U>(f: T -> U, s: seq<T>): (r: seq<U>)
    ensures |r| == |s| && forall i :: 0 <= i < |s| ==> r[i] == f(s[i])
  {
    seq(|s|, i requires 0 <= i < |s| => f(s[i]))
  }

  lemma MapRemove<T, U>(f: T -> U, t: seq<T>, j: nat)
    requires j < |t|
    ensures f(t[j]) in multiset(Map(f, t))
    ensures multiset(Map(f, Without(t, j))) == multiset(Map(f, t)) - multiset{f(t[j])}
  {
    var u := Map(f, t);
    assert u[j] in u;
    assert Map(f, Without(t, j)) == Without(u, j);
    MultisetRemove(u, j);
  }

  function Without<T>(s: seq<T>, j: nat): seq<T>
    requires j < |s|
  {
    s[..j] + s[j + 1..]
  }

  /** The first element of one sequence also occurs in its permutation. */
  lemma FirstOccurs<T>(s: seq<T>, t: seq<T>) returns (j: nat)
    requires multiset(s) == multiset(t) && s != []
    ensures j < |t| && t[j] == s[0] && multiset(Without(s, 0)) == multiset(Without(t, j))
  {
    assert s[0] in multiset(t);
    j :| 0 <= j < |t| && t[j] == s[0];
    MultisetRemove(s, 0);
    MultisetRemove(t, j);
  }

  /** Mapping permuted arguments permutes the results. */
  lemma {:induction false} MapPermuted<T, U>(f: T -> U, s: seq<T>, t: seq<T>)
    requires multiset(s) == multiset(t)
    ensures multiset(Map(f, s)) == multiset(Map(f, t))
    decreases |s|
  {
    if s == [] {
      assert |multiset(t)| == 0;
    } else {
      var j := FirstOccurs(s, t);
      MapPermuted(f, Without(s, 0), Without(t, j));
      MapRemove(f, s, 0);
      MapRemove(f, t, j);
      RestoreOne(multiset(Map(f, s)), multiset(Map(f, t)), f(s[0]));
    }
  }

  lemma RestoreOne<U>(a: multiset<U>, b: multiset<U>, x: U)
    requires x in a && x in b && a - multiset{x} == b - multiset{x}
    ensures a == b
  {
    assert a == (a - multiset{x}) + multiset{x} && b == (b - multiset{x}) + multiset{x};
  }
}
