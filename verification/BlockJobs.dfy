/**
  The two kinds of callback the library gives its executor: filling a buffer point by point, and
  accumulating a per-block total that is merged in block order afterwards. Accumulation and merging
  are arbitrary functions: nothing is assumed associative or commutative.
 */
module BlockJobs {
  import opened Basics
  import opened Executor
  import opened ExecutorSafety

  /** Block b covers the points of [BlockBegin(b), BlockEnd(n, b)). */
  function BlockBegin(b: nat): nat {
    b * BLOCK_SIZE
  }

  function BlockEnd(n: nat, b: nat): (e: nat)
    ensures b < Blocks(n) ==> BlockBegin(b) < e <= n
    ensures b + 1 == Blocks(n) ==> e == n
  {
    Min(n, (b + 1) * BLOCK_SIZE)
  }

  function BlockLength(n: nat, b: nat): nat {
    if BlockEnd(n, b) < BlockBegin(b) then 0 else BlockEnd(n, b) - BlockBegin(b)
  }

  // ----- filling a buffer -----

  /** Writes f(i) at every point i of the block; a failing point abandons its block. */
  function FillJob<T>(n: nat, f: nat -> Result<T, Fault>): Job<seq<T>> {
    Job((b: nat) => BlockLength(n, b),
        (b: nat, k: nat, cell: seq<T>) =>
          match f(BlockBegin(b) + k)
          case Success(x) => if k < |cell| then Ok(cell[k := x]) else Ok(cell)
          case Failure(e) => Throw(cell, e))
  }

  /** The block-wise pieces of a buffer. */
  function Slices<T>(buffer: seq<T>): (cells: seq<seq<T>>)
    ensures |cells| == Blocks(|buffer|)
  {
    seq(Blocks(|buffer|), b requires 0 <= b < Blocks(|buffer|) =>
      buffer[BlockBegin(b)..BlockEnd(|buffer|, b)])
  }

  function Join<T>(cells: seq<seq<T>>): seq<T> {
    if cells == [] then [] else Join(cells[..|cells| - 1]) + cells[|cells| - 1]
  }

  lemma {:induction false} JoinPrefix<T>(buffer: seq<T>, b: nat)
    requires b <= Blocks(|buffer|)
    ensures Join(Slices(buffer)[..b]) == buffer[..if b == 0 then 0 else BlockEnd(|buffer|, b - 1)]
  {
    if b > 0 {
      JoinPrefix(buffer, b - 1);
      assert Slices(buffer)[..b][..b - 1] == Slices(buffer)[..b - 1];
    }
  }

  /** The pieces of a buffer, put together in block order, are the buffer. */
  lemma JoinSlices<T>(buffer: seq<T>)
    ensures Join(Slices(buffer)) == buffer
  {
    JoinPrefix(buffer, Blocks(|buffer|));
    assert Slices(buffer)[..Blocks(|buffer|)] == Slices(buffer);
  }

  predicate Succeeds<T>(lo: nat, hi: nat, f: nat -> Result<T, Fault>) {
    forall i: nat :: lo <= i < hi ==> f(i).Success?
  }

  /** A cell after its first k points have been written. */
  function Filled<T>(f: nat -> Result<T, Fault>, lo: nat, k: nat, cell: seq<T>): (r: seq<T>)
    requires k <= |cell| && Succeeds(lo, lo + k, f)
  {
    seq(|cell|, i requires 0 <= i < |cell| && Succeeds(lo, lo + k, f) => if i < k then f(lo + i).value else cell[i])
  }

  lemma {:induction false} FillReplay<T>(n: nat, f: nat -> Result<T, Fault>, b: nat, k: nat, cell: seq<T>)
    requires k <= |cell| && Succeeds(BlockBegin(b), BlockBegin(b) + k, f)
    ensures Replay(FillJob(n, f), b, k, cell) == Ok(Filled(f, BlockBegin(b), k, cell))
  {
    if k > 0 {
      FillReplay(n, f, b, k - 1, cell);
      var before := Filled(f, BlockBegin(b), k - 1, cell);
      assert before[k - 1 := f(BlockBegin(b) + (k - 1)).value] == Filled(f, BlockBegin(b), k, cell);
    } else {
      assert cell == Filled(f, BlockBegin(b), k, cell);
    }
  }

  /** Whatever the buffer held, a filling run that does not fail leaves f(0), ..., f(n - 1). */
  lemma FillOverwrites<T>(n: nat, f: nat -> Result<T, Fault>, buffer: seq<T>)
    requires |buffer| == n && Succeeds(0, n, f)
    ensures Join(RunCells(FillJob(n, f), Slices(buffer))) == seq(n, i requires 0 <= i < n => f(i).value)
    ensures FirstFault(RunFaults(FillJob(n, f), Slices(buffer))) == Completed
  {
    var target := seq(n, i requires 0 <= i < n => f(i).value);
    var cells := RunCells(FillJob(n, f), Slices(buffer));
    forall b | 0 <= b < Blocks(n)
      ensures cells[b] == Slices(target)[b]
      ensures RunFaults(FillJob(n, f), Slices(buffer))[b] == None
    {
      FillReplay(n, f, b, BlockLength(n, b), Slices(buffer)[b]);
    }
    assert cells == Slices(target);
    JoinSlices(target);
    FirstFaultIsLowest(RunFaults(FillJob(n, f), Slices(buffer)));
  }

  /** A filling run that fails reports the failure of the lowest failing point. */
  lemma FillFails<T>(n: nat, f: nat -> Result<T, Fault>, buffer: seq<T>, i: nat)
    requires |buffer| == n && i < n && f(i).Failure? && Succeeds(0, i, f)
    ensures FirstFault(RunFaults(FillJob(n, f), Slices(buffer))) == Threw(f(i).error)
  {
    var job, faults := FillJob(n, f), RunFaults(FillJob(n, f), Slices(buffer));
    var c := i / BLOCK_SIZE;
    forall b | 0 <= b < c
      ensures faults[b] == None
    {
      FillReplay(n, f, b, BlockLength(n, b), Slices(buffer)[b]);
    }
    var cell := Slices(buffer)[c];
    var k := i - BlockBegin(c);
    FillReplay(n, f, c, k, cell);
    assert Replay(job, c, k + 1, cell).Throw?;
    ReplayKeepsThrow(job, c, k + 1, BlockLength(n, c), cell);
    assert faults[c] == Some(f(i).error);
    FirstFaultIsLowest(faults);
  }

  // ----- accumulating -----

  /** Adds the points of the block, in order, to the block's own total. */
  function SumJob<A>(n: nat, add: (A, nat) -> A): Job<A> {
    Job((b: nat) => BlockLength(n, b), (b: nat, k: nat, total: A) => Ok(add(total, BlockBegin(b) + k)))
  }

  /** The sequential fold over [lo, hi). */
  function Fold<A>(add: (A, nat) -> A, start: A, lo: nat, hi: nat): A
    decreases hi - lo
  {
    if hi <= lo then start else add(Fold(add, start, lo, hi - 1), hi - 1)
  }

  /** The merge of the first b block totals, in block order. */
  function MergeFirst<A>(merge: (A, A) -> A, zero: A, totals: seq<A>): A {
    if totals == [] then zero else merge(MergeFirst(merge, zero, totals[..|totals| - 1]), totals[|totals| - 1])
  }

  function BlockTotals<A>(n: nat, add: (A, nat) -> A, zero: A): seq<A> {
    seq(Blocks(n), b requires 0 <= b < Blocks(n) => Fold(add, zero, BlockBegin(b), BlockEnd(n, b)))
  }

  /** The one value every worker count and every interleaving produces. */
  function FixedBlockTotal<A>(n: nat, add: (A, nat) -> A, merge: (A, A) -> A, zero: A): A {
    MergeFirst(merge, zero, BlockTotals(n, add, zero))
  }

  lemma {:induction false} SumReplay<A>(n: nat, add: (A, nat) -> A, b: nat, k: nat, zero: A)
    ensures Replay(SumJob(n, add), b, k, zero) == Ok(Fold(add, zero, BlockBegin(b), BlockBegin(b) + k))
  {
    if k > 0 {
      SumReplay(n, add, b, k - 1, zero);
    }
  }

  /** The cells an accumulating run leaves are the per-block sequential folds. */
  lemma SumCells<A>(n: nat, add: (A, nat) -> A, zero: A)
    ensures RunCells(SumJob(n, add), seq(Blocks(n), _ => zero)) == BlockTotals(n, add, zero)
    ensures FirstFault(RunFaults(SumJob(n, add), seq(Blocks(n), _ => zero))) == Completed
  {
    forall b | 0 <= b < Blocks(n)
      ensures BlockReply(SumJob(n, add), b, zero) == Ok(BlockTotals(n, add, zero)[b])
    {
      SumReplay(n, add, b, BlockLength(n, b), zero);
    }
    FirstFaultIsLowest(RunFaults(SumJob(n, add), seq(Blocks(n), _ => zero)));
  }

  /** The merge loop that follows the parallel reduction. */
  method MergeInBlockOrder<A>(merge: (A, A) -> A, zero: A, totals: seq<A>) returns (total: A)
    ensures total == MergeFirst(merge, zero, totals)
  {
    total := zero;
    for b := 0 to |totals|
      invariant total == MergeFirst(merge, zero, totals[..b])
    {
      assert totals[..b + 1][..b] == totals[..b];
      total := merge(total, totals[b]);
    }
    assert totals[..|totals|] == totals;
  }

  /** For any addition whatsoever: two reductions over the same points, on executors of any sizes
      and histories under any schedules, merge to the same value. */
  lemma ReductionIndependent<A>(s1: State<A>, s2: State<A>, n: nat, add: (A, nat) -> A, merge: (A, A) -> A, zero: A,
                                schedule1: seq<Action<A>>, schedule2: seq<Action<A>>, z1: State<A>, z2: State<A>)
    requires Inv(s1) && Inv(s2)
    requires var a := CallRun(SumJob(n, add), n, seq(Blocks(n), _ => zero));
      && Enabled(s1, a) && Internal(schedule1) && Leads(Step(s1, a), schedule1, z1) && z1.caller.Idle?
      && Enabled(s2, a) && Internal(schedule2) && Leads(Step(s2, a), schedule2, z2) && z2.caller.Idle?
    ensures MergeFirst(merge, zero, z1.cells) == FixedBlockTotal(n, add, merge, zero)
    ensures MergeFirst(merge, zero, z2.cells) == FixedBlockTotal(n, add, merge, zero)
  {
    var memory := seq(Blocks(n), _ => zero);
    SumCells(n, add, zero);
    RunDelivers(s1, SumJob(n, add), n, memory, schedule1, z1);
    RunDelivers(s2, SumJob(n, add), n, memory, schedule2, z2);
  }

  function Listing(): (seq<nat>, nat) -> seq<nat> {
    (s: seq<nat>, i: nat) => s + [i]
  }

  function Joining(): (seq<nat>, seq<nat>) -> seq<nat> {
    (s: seq<nat>, t: seq<nat>) => s + t
  }

  lemma {:induction false} FoldLists(lo: nat, hi: nat)
    requires lo <= hi
    ensures Fold(Listing(), [], lo, hi) == Indices(hi)[lo..]
    decreases hi
  {
    if lo < hi {
      FoldLists(lo, hi - 1);
      assert Indices(hi)[lo..] == Indices(hi - 1)[lo..] + [hi - 1];
    }
  }

  lemma {:induction false} MergeLists(n: nat, b: nat)
    requires b <= Blocks(n)
    ensures MergeFirst(Joining(), [], BlockTotals(n, Listing(), [])[..b]) == Indices(if b == 0 then 0 else BlockEnd(n, b - 1))
  {
    var totals := BlockTotals(n, Listing(), []);
    if b > 0 {
      MergeLists(n, b - 1);
      assert totals[..b][..b - 1] == totals[..b - 1];
      FoldLists(BlockBegin(b - 1), BlockEnd(n, b - 1));
      IndicesSplit(BlockBegin(b - 1), BlockEnd(n, b - 1));
      assert BlockBegin(b - 1) == if b == 1 then 0 else BlockEnd(n, b - 2);
    }
  }

  lemma IndicesSplit(m: nat, n: nat)
    requires m <= n
    ensures Indices(n) == Indices(m) + Indices(n)[m..]
  {
  }

  /** The blocks tile [0, n): folding and merging lists visits every point once, in order. */
  lemma BlocksTile(n: nat)
    ensures FixedBlockTotal(n, Listing(), Joining(), []) == Indices(n)
  {
    MergeLists(n, Blocks(n));
    var totals := BlockTotals(n, Listing(), []);
    assert totals[..Blocks(n)] == totals;
  }
}
