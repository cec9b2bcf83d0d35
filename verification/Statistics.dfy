/**
  The deviation and coverage summaries of src/comparison/comparison_statistics.cpp, over exact reals.
  The square root is a parameter.
 */
module Statistics {
  import opened Basics
  import opened Fields

  function Squares(values: seq<real>): (q: real)
    ensures q >= 0.0
  {
    if values == [] then 0.0 else Squares(values[..|values| - 1]) + values[|values| - 1] * values[|values| - 1]
  }

  function Peak(values: seq<real>): (m: real)
    ensures m >= 0.0
  {
    if values == [] then 0.0
    else
      var m, x := Peak(values[..|values| - 1]), Abs(values[|values| - 1]);
      if m < x then x else m
  }

  // ----- sums -----

  function Square(): real -> real {
    (x: real) => x * x
  }

  lemma {:induction false} SquaresIsTotal(values: seq<real>)
    ensures Squares(values) == Total(Map(Square(), values))
  {
    if values != [] {
      var n := |values| - 1;
      SquaresIsTotal(values[..n]);
      assert Map(Square(), values)[..n] == Map(Square(), values[..n]);
    }
  }

  // ----- mean, root mean square, peak -----

  /** The peak bounds every magnitude and is one of them. */
  lemma {:induction false} PeakIsMax(values: seq<real>) returns (at: nat)
    requires values != []
    ensures forall i :: 0 <= i < |values| ==> Abs(values[i]) <= Peak(values)
    ensures at < |values| && Abs(values[at]) == Peak(values)
  {
    var n := |values| - 1;
    at := n;
    if n > 0 {
      var before := PeakIsMax(values[..n]);
      assert forall i :: 0 <= i < n ==> values[..n][i] == values[i];
      if Peak(values[..n]) >= Abs(values[n]) {
        at := before;
      }
    }
  }

  lemma SquareNonNegative(x: real)
    ensures x * x >= 0.0
  {
  }

  lemma CauchyGap(n: real, total: real, squares: real, x: real)
    requires n >= 1.0 && total * total <= n * squares
    ensures n * (x * x) + squares - 2.0 * (total * x) >= 0.0
  {
    var d := n * x - total;
    SquareNonNegative(d);
    assert d * d == n * n * (x * x) - 2.0 * n * (total * x) + total * total;
    var gap := n * (x * x) + squares - 2.0 * (total * x);
    assert n * gap == n * n * (x * x) + n * squares - 2.0 * n * (total * x);
    Positive(n, gap);
  }

  /** One step of the Cauchy-Schwarz induction. */
  lemma CauchyStep(n: real, total: real, squares: real, x: real, n': real, total': real, squares': real)
    requires ((n == 0.0 && total == 0.0) || n >= 1.0) && squares >= 0.0 && total * total <= n * squares
    requires n' == n + 1.0 && total' == total + x && squares' == squares + x * x
    ensures total' * total' <= n' * squares'
  {
    if n >= 1.0 {
      CauchyGap(n, total, squares, x);
    }
    assert n' * squares' - total' * total' == n * squares - total * total + (n * (x * x) + squares - 2.0 * (total * x));
  }

  lemma Positive(n: real, x: real)
    requires n > 0.0 && n * x >= 0.0
    ensures x >= 0.0
  {
  }

  lemma {:induction false} CauchySchwarz(values: seq<real>, n: real, total: real, squares: real)
    requires n == |values| as real && total == Total(values) && squares == Squares(values)
    ensures total * total <= n * squares
  {
    if values != [] {
      var rest, x := values[..|values| - 1], values[|values| - 1];
      var count, sum, sumSquares := |rest| as real, Total(rest), Squares(rest);
      CauchySchwarz(rest, count, sum, sumSquares);
      CauchyStep(count, sum, sumSquares, x, n, total, squares);
    }
  }

  lemma {:induction false} SquaresBound(values: seq<real>, m: real)
    requires m >= 0.0 && forall i :: 0 <= i < |values| ==> Abs(values[i]) <= m
    ensures Squares(values) <= (|values| as real) * (m * m)
  {
    if values != [] {
      var n := |values| - 1;
      SquaresBound(values[..n], m);
      SquareBelow(Abs(values[n]), m);
      OneMore(n as real, m * m);
    }
  }

  lemma SquareBelow(a: real, b: real)
    requires 0.0 <= a <= b
    ensures a * a <= b * b
  {
  }

  lemma Product(x: real, y: real)
    requires x > 0.0 && y > 0.0
    ensures x * y > 0.0
  {
  }

  lemma BelowSquare(a: real, b: real)
    requires b >= 0.0 && a * a <= b * b
    ensures -b <= a <= b
  {
    assert (a - b) * (a + b) == a * a - b * b && (-a - b) * (-a + b) == a * a - b * b;
    if a > b {
      Product(a - b, a + b);
    } else if a < -b {
      Product(-a - b, -a + b);
    }
  }

  // ----- nearest-rank percentile -----

  predicate Sorted(s: seq<real>) {
    forall i, j :: 0 <= i < j < |s| ==> s[i] <= s[j]
  }

  /** The position of the 95th percentile: ceil(0.95 n) - 1. */
  function PercentileIndex(n: nat): (k: nat)
    requires n > 0
    ensures k < n && 20 * (k + 1) >= 19 * n > 20 * k
  {
    (19 * n + 19) / 20 - 1
  }

  /** 0.95 as a double: 4278419646001971 / 2^52. */
  const P95: real := 4278419646001971.0 / 4503599627370496.0

  /** Round to nearest, as far as it is used: every k / 32 with |k| <= 2^53 is a double, so none is nearer to the
      exact value than the rounded one. */
  ghost predicate RoundsToNearest(round: real -> real) {
    forall x: real, k: int {:trigger Nearness(round, x, k)} ::
      -0x20_0000_0000_0000 <= k <= 0x20_0000_0000_0000 ==> Nearness(round, x, k)
  }

  ghost predicate Nearness(round: real -> real, x: real, k: int) {
    Abs(round(x) - x) <= Abs(k as real / 32.0 - x)
  }

  function Ceiling(x: real): int {
    -((-x).Floor)
  }

  lemma CeilingIs(x: real, m: int)
    requires (m - 1) as real < x <= m as real
    ensures Ceiling(x) == m
  {
  }

  /** The product of doubles that the source takes has the ceiling of the exact product. */
  lemma DoublePercentile(round: real -> real, n: nat)
    requires RoundsToNearest(round) && 0 < n <= 0x1_0000_0000_0000
    ensures Ceiling(round(P95 * n as real)) == PercentileIndex(n) + 1
  {
    var m := PercentileIndex(n) + 1;
    var x := P95 * n as real;
    assert x == 19.0 * n as real / 20.0 - n as real / 22517998136852480.0;
    assert Nearness(round, x, 32 * m);
    assert Nearness(round, x, 32 * (m - 1) + 1);
    ProductRounds(n as real, m as real, x, round(x));
    CeilingIs(round(x), m);
  }

  lemma ProductRounds(n: real, m: real, x: real, y: real)
    requires 1.0 <= n <= 281474976710656.0 && x == 19.0 * n / 20.0 - n / 22517998136852480.0
    requires 20.0 * m == 19.0 * n || 20.0 * m - 19.0 * n >= 1.0
    requires 20.0 * (m - 1.0) <= 19.0 * n - 1.0
    requires Abs(y - x) <= Abs(m - x) && Abs(y - x) <= Abs(m - 1.0 + 1.0 / 32.0 - x)
    ensures m - 1.0 < y <= m
  {
    assert 0.0 < n / 22517998136852480.0 <= 0.0125;
  }

  function AtMost(v: real): real -> bool {
    (x: real) => x <= v
  }

  function Below(v: real): real -> bool {
    (x: real) => x < v
  }

  lemma {:induction false} CountAll<T>(s: seq<T>, p: T -> bool)
    requires forall i :: 0 <= i < |s| ==> p(s[i])
    ensures Count(s, p) == |s|
  {
    if s != [] {
      CountAll(s[..|s| - 1], p);
    }
  }

  lemma CountAtMost<T>(s: seq<T>, p: T -> bool)
    ensures Count(s, p) <= |s|
  {
  }

  /** v is the nearest-rank 95th percentile: at least 95% of the values are at most v, fewer are below. */
  ghost predicate IsPercentile95(values: seq<real>, v: real) {
    20 * Count(values, AtMost(v)) >= 19 * |values| && 20 * Count(values, Below(v)) < 19 * |values|
  }

  lemma SortedPercentile(s: seq<real>)
    requires Sorted(s) && s != []
    ensures IsPercentile95(s, s[PercentileIndex(|s|)])
  {
    SortedRank(s, PercentileIndex(|s|));
  }

  /** More than k values are at most the k-th, and no more than k are below it. */
  lemma SortedRank(s: seq<real>, k: nat)
    requires Sorted(s) && k < |s|
    ensures Count(s, AtMost(s[k])) >= k + 1 && Count(s, Below(s[k])) <= k
  {
    CountFront(s, k + 1, AtMost(s[k]));
    CountUpTo(s, k, Below(s[k]));
  }

  lemma CountFront(s: seq<real>, k: nat, p: real -> bool)
    requires k <= |s| && forall i :: 0 <= i < k ==> p(s[i])
    ensures Count(s, p) >= k
  {
    assert s == s[..k] + s[k..];
    CountConcat(s[..k], s[k..], p);
    CountAll(s[..k], p);
  }

  lemma CountUpTo(s: seq<real>, k: nat, p: real -> bool)
    requires k <= |s| && forall i :: k <= i < |s| ==> !p(s[i])
    ensures Count(s, p) <= k
  {
    assert s == s[..k] + s[k..];
    CountConcat(s[..k], s[k..], p);
    CountAtMost(s[..k], p);
    CountNone(s[k..], p);
  }

  /** The values in ascending order. */
  function Insert(s: seq<real>, x: real): (r: seq<real>)
    requires Sorted(s)
    ensures Sorted(r) && |r| == |s| + 1
    ensures s != [] ==> r[|s|] == if s[|s| - 1] <= x then x else s[|s| - 1]
  {
    var n := |s| - 1;
    if s == [] || s[n] <= x then s + [x] else Insert(s[..n], x) + [s[n]]
  }

  function InOrder(s: seq<real>): (r: seq<real>)
    ensures Sorted(r) && |r| == |s|
  {
    if s == [] then [] else Insert(InOrder(s[..|s| - 1]), s[|s| - 1])
  }

  lemma {:induction false} InsertKeeps(s: seq<real>, x: real)
    requires Sorted(s)
    ensures multiset(Insert(s, x)) == multiset(s) + multiset{x}
  {
    if s != [] && s[|s| - 1] > x {
      InsertKeeps(s[..|s| - 1], x);
      assert s == s[..|s| - 1] + [s[|s| - 1]];
    }
  }

  lemma {:induction false} InOrderKeeps(s: seq<real>)
    ensures multiset(InOrder(s)) == multiset(s)
  {
    if s != [] {
      InOrderKeeps(s[..|s| - 1]);
      InsertKeeps(InOrder(s[..|s| - 1]), s[|s| - 1]);
      assert s == s[..|s| - 1] + [s[|s| - 1]];
    }
  }

  lemma LastIsLargest(s: seq<real>, x: real)
    requires Sorted(s) && s != [] && x in multiset(s)
    ensures x <= s[|s| - 1]
  {
    var i :| 0 <= i < |s| && s[i] == x;
  }

  lemma DropLast(s: seq<real>)
    requires s != []
    ensures multiset(s[..|s| - 1]) == multiset(s) - multiset{s[|s| - 1]}
  {
    assert s == s[..|s| - 1] + [s[|s| - 1]];
  }

  lemma SameLast(a: seq<real>, b: seq<real>)
    requires Sorted(a) && Sorted(b) && multiset(a) == multiset(b) && a != []
    ensures |a| == |b| && a[|a| - 1] == b[|b| - 1]
    ensures multiset(a[..|a| - 1]) == multiset(b[..|b| - 1])
  {
    assert |a| == |multiset(a)| == |multiset(b)| == |b|;
    var x, y := a[|a| - 1], b[|b| - 1];
    assert x in multiset(a) && y in multiset(b);
    LastIsLargest(a, y);
    LastIsLargest(b, x);
    DropLast(a);
    DropLast(b);
  }

  /** There is only one way to sort. */
  lemma {:induction false} SortedIsUnique(a: seq<real>, b: seq<real>)
    requires Sorted(a) && Sorted(b) && multiset(a) == multiset(b)
    ensures a == b
    decreases |a|
  {
    if a == [] {
      assert |multiset(b)| == 0;
    } else {
      SameLast(a, b);
      var s, t := a[..|a| - 1], b[..|b| - 1];
      SortedIsUnique(s, t);
      assert a == s + [a[|a| - 1]] && b == t + [b[|b| - 1]];
    }
  }

  /** Where x goes in a sorted sequence. */
  method Place(sorted: seq<real>, x: real) returns (at: nat)
    requires Sorted(sorted)
    ensures at <= |sorted| && Sorted(sorted[..at] + [x] + sorted[at..])
  {
    at := |sorted|;
    while at > 0 && sorted[at - 1] > x
      invariant at <= |sorted| && forall j :: at <= j < |sorted| ==> x < sorted[j]
    {
      at := at - 1;
    }
  }

  lemma InsertedMultiset(s: seq<real>, at: nat, x: real)
    requires at <= |s|
    ensures multiset(s[..at] + [x] + s[at..]) == multiset(s) + multiset{x}
  {
    assert s == s[..at] + s[at..];
  }

  /** std::sort: any sorting algorithm gives this result. */
  method Sort(values: seq<real>) returns (sorted: seq<real>)
    ensures sorted == InOrder(values)
  {
    sorted := [];
    for i := 0 to |values|
      invariant Sorted(sorted) && multiset(sorted) == multiset(values[..i])
    {
      var at := Place(sorted, values[i]);
      InsertedMultiset(sorted, at, values[i]);
      assert values[..i + 1] == values[..i] + [values[i]];
      sorted := sorted[..at] + [values[i]] + sorted[at..];
    }
    assert values[..|values|] == values;
    InOrderKeeps(values);
    SortedIsUnique(sorted, InOrder(values));
  }

  // ----- summaries -----

  datatype Summary = Summary(mean: real, rms: real, maxAbs: real, p95: real)

  function Magnitudes(values: seq<real>): (r: seq<real>)
    ensures |r| == |values|
  {
    seq(|values|, i requires 0 <= i < |values| => Abs(values[i]))
  }

  /** The nearest-rank 95th percentile of some magnitudes. */
  function Percentile95(magnitudes: seq<real>): real
    requires magnitudes != []
  {
    InOrder(magnitudes)[PercentileIndex(|magnitudes|)]
  }

  lemma PercentileIsNearestRank(magnitudes: seq<real>)
    requires magnitudes != []
    ensures Percentile95(magnitudes) in magnitudes && IsPercentile95(magnitudes, Percentile95(magnitudes))
  {
    var sorted, p95 := InOrder(magnitudes), Percentile95(magnitudes);
    InOrderKeeps(magnitudes);
    SortedPercentile(sorted);
    CountPermuted(sorted, magnitudes, AtMost(p95));
    CountPermuted(sorted, magnitudes, Below(p95));
    assert p95 in multiset(sorted) && (p95 in magnitudes <==> p95 in multiset(magnitudes));
  }

  /** No other value has that rank. */
  lemma PercentileIsUnique(magnitudes: seq<real>, v: real, w: real)
    requires v in magnitudes && w in magnitudes
    requires IsPercentile95(magnitudes, v) && IsPercentile95(magnitudes, w)
    ensures v == w
  {
    if v < w {
      CountMonotone(magnitudes, AtMost(v), Below(w));
    } else if w < v {
      CountMonotone(magnitudes, AtMost(w), Below(v));
    }
  }

  lemma {:induction false} CountMonotone(s: seq<real>, p: real -> bool, q: real -> bool)
    requires forall x :: p(x) ==> q(x)
    ensures Count(s, p) <= Count(s, q)
  {
    if s != [] {
      CountMonotone(s[..|s| - 1], p, q);
    }
  }

  /** What a summary holds, all zero when there is nothing to summarize. */
  function SummaryOf(values: seq<real>, root: real -> real): Summary {
    if values == [] then Summary(0.0, 0.0, 0.0, 0.0)
    else
      var n := |values| as real;
      Summary(Total(values) / n, root(Squares(values) / n), Peak(values), Percentile95(Magnitudes(values)))
  }

  lemma MeanRmsOrder(values: seq<real>, root: real -> real, n: real, total: real, squares: real, mean: real, rms: real)
    requires IsRoot(root) && values != []
    requires n == |values| as real && total == Total(values) && squares == Squares(values)
    requires mean == total / n && rms == root(squares / n)
    ensures Abs(mean) <= rms <= Peak(values)
  {
    RootOfQuotient(squares, n, root);
    QuotientTimes(total, n);
    MeanOrder(values, n, total, squares, mean, rms);
    RmsOrder(values, n, squares, Peak(values), rms);
  }

  /** |mean| <= rms <= max, and the percentile is a magnitude. */
  lemma SummaryOrder(values: seq<real>, root: real -> real)
    requires IsRoot(root) && values != []
    ensures var s := SummaryOf(values, root);
      Abs(s.mean) <= s.rms <= s.maxAbs && 0.0 <= s.p95 <= s.maxAbs
  {
    var s := SummaryOf(values, root);
    MeanRmsOrder(values, root, |values| as real, Total(values), Squares(values), s.mean, s.rms);
    PercentileIsNearestRank(Magnitudes(values));
    PercentileOrder(s.p95, values);
  }

  /** The mean, the root mean square and the peak of a summary. */
  lemma SummaryMeans(values: seq<real>, root: real -> real) returns (at: nat)
    requires IsRoot(root) && values != []
    ensures var s, n := SummaryOf(values, root), |values| as real;
      && Times(s.mean, n) == Total(values)
      && s.rms >= 0.0 && Times(Times(s.rms, s.rms), n) == Total(Map(Square(), values))
      && at < |values| && s.maxAbs == Abs(values[at]) && forall i :: 0 <= i < |values| ==> Abs(values[i]) <= s.maxAbs
  {
    at := PeakIsMax(values);
    MeanReals(Total(values), Squares(values), |values| as real, root);
    SquaresIsTotal(values);
  }

  lemma MeanReals(total: real, squares: real, n: real, root: real -> real)
    requires IsRoot(root) && n >= 1.0 && squares >= 0.0
    ensures Times(total / n, n) == total && root(squares / n) >= 0.0
    ensures Times(Times(root(squares / n), root(squares / n)), n) == squares
  {
    QuotientTimes(total, n);
    RootOfQuotient(squares, n, root);
  }

  lemma PercentileOrder(p95: real, values: seq<real>)
    requires values != [] && p95 in Magnitudes(values)
    ensures 0.0 <= p95 <= Peak(values)
  {
    var at := PeakIsMax(values);
    var i :| 0 <= i < |values| && Magnitudes(values)[i] == p95;
    assert Abs(values[i]) == p95;
  }

  lemma RootOfQuotient(squares: real, n: real, root: real -> real)
    requires IsRoot(root) && n >= 1.0 && squares >= 0.0
    ensures root(squares / n) >= 0.0 && root(squares / n) * root(squares / n) * n == squares
  {
    PositiveQuotient(squares, n);
    var rms := root(squares / n);
    assert rms * rms == squares / n;
  }

  lemma MeanOrder(values: seq<real>, n: real, total: real, squares: real, mean: real, rms: real)
    requires values != [] && n == |values| as real && total == Total(values) && squares == Squares(values)
    requires mean * n == total && rms >= 0.0 && rms * rms * n == squares
    ensures -rms <= mean <= rms
  {
    CauchySchwarz(values, n, total, squares);
    MeanBelow(n, mean, rms, total, squares);
  }

  lemma RmsOrder(values: seq<real>, n: real, squares: real, m: real, rms: real)
    requires values != [] && n == |values| as real && squares == Squares(values) && m == Peak(values)
    requires rms >= 0.0 && rms * rms * n == squares
    ensures rms <= m
  {
    var at := PeakIsMax(values);
    SquaresBound(values, m);
    RmsBelow(n, rms, m, squares);
    BelowSquare(rms, m);
  }

  lemma MeanBelow(n: real, mean: real, rms: real, total: real, squares: real)
    requires n >= 1.0 && mean * n == total && rms >= 0.0 && rms * rms * n == squares && total * total <= n * squares
    ensures -rms <= mean <= rms
  {
    assert total * total == n * n * (mean * mean);
    assert n * squares == n * n * (rms * rms);
    var gap := rms * rms - mean * mean;
    assert n * (n * gap) >= 0.0;
    Positive(n, n * gap);
    Positive(n, gap);
    BelowSquare(mean, rms);
  }

  lemma RmsBelow(n: real, rms: real, m: real, squares: real)
    requires n >= 1.0 && rms * rms * n == squares && squares <= n * (m * m)
    ensures rms * rms <= m * m
  {
    var gap := m * m - rms * rms;
    assert n * gap >= 0.0;
    Positive(n, gap);
  }

  lemma MagnitudesExtend(values: seq<real>, i: nat)
    requires i < |values|
    ensures Magnitudes(values[..i + 1]) == Magnitudes(values[..i]) + [Abs(values[i])]
  {
  }

  /** The single pass over the values. */
  method Accumulate(values: seq<real>) returns (total: real, squares: real, peak: real, magnitudes: seq<real>)
    ensures total == Total(values) && squares == Squares(values) && peak == Peak(values)
    ensures magnitudes == Magnitudes(values)
  {
    total, squares, peak, magnitudes := 0.0, 0.0, 0.0, [];
    for i := 0 to |values|
      invariant total == Total(values[..i]) && squares == Squares(values[..i]) && peak == Peak(values[..i])
      invariant magnitudes == Magnitudes(values[..i])
    {
      assert values[..i + 1][..i] == values[..i];
      MagnitudesExtend(values, i);
      total := total + values[i];
      squares := squares + values[i] * values[i];
      peak := if peak < Abs(values[i]) then Abs(values[i]) else peak;
      magnitudes := magnitudes + [Abs(values[i])];
    }
    assert values[..|values|] == values;
  }

  /** The summary of the values: the pass, the divisions and the sort. */
  method Describe(values: seq<real>, root: real -> real) returns (s: Summary)
    ensures s == SummaryOf(values, root)
  {
    if values == [] {
      return Summary(0.0, 0.0, 0.0, 0.0);
    }
    var total, squares, peak, magnitudes := Accumulate(values);
    var sorted := Sort(magnitudes);
    var p95 := sorted[PercentileIndex(|sorted|)];
    var n := |values| as real;
    s := Summary(total / n, root(squares / n), peak, p95);
  }

  /** The signed deviations of the trusted samples, in storage order. */
  function TrustedValues(samples: seq<DeviationSample>): (values: seq<real>)
    ensures |values| == Count(samples, IsTrusted())
  {
    if samples == [] then []
    else
      var rest, last := TrustedValues(samples[..|samples| - 1]), samples[|samples| - 1];
      if last.reason == Trusted then rest + [last.signed] else rest
  }

  /** They are the signed deviations at the trusted positions, in order. */
  lemma {:induction false} TrustedValuesMean(samples: seq<DeviationSample>) returns (at: seq<nat>)
    ensures forall i :: 0 <= i < |at| ==> at[i] < |samples|
    ensures forall i, j :: 0 <= i < j < |at| ==> at[i] < at[j]
    ensures forall x: nat :: x in at <==> x < |samples| && samples[x].reason == Trusted
    ensures |TrustedValues(samples)| == |at| && forall i :: 0 <= i < |at| ==> TrustedValues(samples)[i] == samples[at[i]].signed
  {
    at := [];
    if samples != [] {
      var n := |samples| - 1;
      var before := TrustedValuesMean(samples[..n]);
      at := before + if samples[n].reason == Trusted then [n] else [];
      forall x: nat
        ensures x in at <==> x < |samples| && samples[x].reason == Trusted
      {
        assert x in at <==> x in before || (x == n && samples[n].reason == Trusted);
      }
    }
  }

  function HasReason(reason: DeviationReason): DeviationSample -> bool {
    (s: DeviationSample) => s.reason == reason
  }

  datatype DeviationStatistics = DeviationStatistics(
    validCount: nat, inputInvalid: nat, noNeighbor: nat, normalMissing: nat, normalMismatch: nat,
    referenceBoundary: nat, summary: Summary)

  ghost predicate Counts(d: DeviationStatistics, samples: seq<DeviationSample>) {
    && d.validCount == Count(samples, HasReason(Trusted))
    && d.inputInvalid == Count(samples, HasReason(InputInvalid))
    && d.noNeighbor == Count(samples, HasReason(NoNeighbor))
    && d.normalMissing == Count(samples, HasReason(NormalMissing))
    && d.normalMismatch == Count(samples, HasReason(NormalMismatch))
    && d.referenceBoundary == Count(samples, HasReason(ReferenceBoundary))
  }

  /** The counters partition the storage, padding included. */
  lemma {:induction false} CountersPartition(d: DeviationStatistics, samples: seq<DeviationSample>)
    requires Counts(d, samples)
    decreases |samples|
    ensures d.validCount + d.inputInvalid + d.noNeighbor + d.normalMissing + d.normalMismatch + d.referenceBoundary == |samples|
  {
    if samples != [] {
      var rest := samples[..|samples| - 1];
      CountersPartition(DeviationStatistics(
        Count(rest, HasReason(Trusted)), Count(rest, HasReason(InputInvalid)), Count(rest, HasReason(NoNeighbor)),
        Count(rest, HasReason(NormalMissing)), Count(rest, HasReason(NormalMismatch)),
        Count(rest, HasReason(ReferenceBoundary)), d.summary), rest);
    }
  }

  method SummarizeDeviation(field: DeviationField, root: real -> real) returns (d: DeviationStatistics)
    ensures Counts(d, field.samples) && d.summary == SummaryOf(TrustedValues(field.samples), root)
  {
    var samples := field.samples;
    d := DeviationStatistics(0, 0, 0, 0, 0, 0, Summary(0.0, 0.0, 0.0, 0.0));
    var values := [];
    for i := 0 to |samples|
      invariant Counts(d, samples[..i]) && values == TrustedValues(samples[..i])
    {
      assert samples[..i + 1][..i] == samples[..i];
      match samples[i].reason {
        case Trusted =>
          d := d.(validCount := d.validCount + 1);
          values := values + [samples[i].signed];
        case InputInvalid => d := d.(inputInvalid := d.inputInvalid + 1);
        case NoNeighbor => d := d.(noNeighbor := d.noNeighbor + 1);
        case NormalMissing => d := d.(normalMissing := d.normalMissing + 1);
        case NormalMismatch => d := d.(normalMismatch := d.normalMismatch + 1);
        case ReferenceBoundary => d := d.(referenceBoundary := d.referenceBoundary + 1);
      }
    }
    assert samples[..|samples|] == samples;
    var summary := Describe(values, root);
    d := d.(summary := summary);
  }

  // ----- coverage -----

  datatype CoverageSummary = CoverageSummary(
    coveredCount: nat, validCount: nat, ratio: real, inputInvalid: nat, noNeighbor: nat, scanBoundary: nat)

  function HasCoverage(reason: CoverageReason): CoverageSample -> bool {
    (s: CoverageSample) => s.reason == reason
  }

  function CoverageRatio(covered: nat, valid: nat): real {
    if valid == 0 then 0.0 else covered as real / valid as real
  }

  /** The ratio is a fraction of what is valid, and zero when nothing is. */
  lemma RatioMeans(covered: nat, valid: nat)
    requires covered <= valid
    ensures 0.0 <= CoverageRatio(covered, valid) <= 1.0
    ensures if valid == 0 then CoverageRatio(covered, valid) == 0.0 else Times(CoverageRatio(covered, valid), valid as real) == covered as real
  {
    if valid > 0 {
      FractionMeans(covered, valid);
    }
  }

  ghost predicate CoverageCounts(c: CoverageSummary, samples: seq<CoverageSample>) {
    && c.inputInvalid == Count(samples, HasCoverage(Masked))
    && c.noNeighbor == Count(samples, HasCoverage(Uncovered))
    && c.scanBoundary == Count(samples, HasCoverage(ScanBoundary))
  }

  method SummarizeCoverage(field: CoverageField) returns (c: CoverageSummary)
    ensures CoverageCounts(c, field.samples)
    ensures c.coveredCount == field.coveredCount && c.validCount == field.validCount
    ensures c.ratio == CoverageRatio(field.coveredCount, field.validCount)
  {
    var samples := field.samples;
    c := CoverageSummary(field.coveredCount, field.validCount, CoverageRatio(field.coveredCount, field.validCount), 0, 0, 0);
    for i := 0 to |samples|
      invariant CoverageCounts(c, samples[..i])
      invariant c.coveredCount == field.coveredCount && c.validCount == field.validCount
      invariant c.ratio == CoverageRatio(field.coveredCount, field.validCount)
    {
      assert samples[..i + 1][..i] == samples[..i];
      match samples[i].reason {
        case Covered =>
        case Masked => c := c.(inputInvalid := c.inputInvalid + 1);
        case Uncovered => c := c.(noNeighbor := c.noNeighbor + 1);
        case ScanBoundary => c := c.(scanBoundary := c.scanBoundary + 1);
      }
    }
    assert samples[..|samples|] == samples;
  }

  /** The counters of a coverage field partition its valid points and its storage. */
  lemma {:induction false} CoveragePartition(samples: seq<CoverageSample>)
    ensures Count(samples, IsCovered()) + Count(samples, HasCoverage(Uncovered)) + Count(samples, HasCoverage(ScanBoundary))
            == Count(samples, IsKnown())
    ensures Count(samples, IsKnown()) + Count(samples, HasCoverage(Masked)) == |samples|
  {
    if samples != [] {
      CoveragePartition(samples[..|samples| - 1]);
    }
  }
}
