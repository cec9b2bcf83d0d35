/**
  What every reachable state of the executor satisfies, under any interleaving: the barrier's
  counters are exact, no wakeup is lost, the published job is stable while anyone executes it, and
  every block's cell holds what the block computes alone.
 */
module ExecutorSafety {
  import opened Basics
  import opened Executor

  // ----- the invariant -----

  predicate Active(c: Caller) {
    c.NotifyReady? || c.Executing? || c.LockFinish? || c.TestFinish? || c.AwaitFinish?
  }

  predicate Preparing(c: Caller) {
    c.LockPublish? || c.Publish?
  }

  predicate Halting(c: Caller) {
    c.NotifyStop? || c.Join? || c.Stopped?
  }

  predicate Ready(w: Worker) {
    w.LockReady? || w.TestReady? || w.AwaitReady?
  }

  predicate Working(w: Worker) {
    w.Running? || w.LockDone? || w.CountDone?
  }

  predicate CallerHolds(c: Caller) {
    c.Publish? || c.TestFinish? || c.SetStop?
  }

  predicate WorkerHolds(w: Worker) {
    w.TestReady? || w.CountDone? || w.NotifyDone?
  }

  /** The mutex has an owner exactly while one thread is inside a critical section. */
  ghost predicate MutexExact<V>(s: State<V>)
    requires Shaped(s)
  {
    && (s.mutex.Some? ==> s.mutex.value < s.count)
    && (CallerHolds(s.caller) <==> s.mutex == Some(0))
    && forall w :: 1 <= w < s.count ==> (WorkerHolds(s.workers[w]) <==> s.mutex == Some(w))
  }

  /** A worker that has not yet begun the current run. */
  predicate Behind<V>(s: State<V>, w: nat)
    requires Shaped(s) && w < s.count
  {
    Ready(s.workers[w]) && s.observed[w] != s.generation
  }

  /** Every worker has seen the current generation or the one before it. */
  ghost predicate Generations<V>(s: State<V>)
    requires Shaped(s)
  {
    && s.generation < GENERATIONS
    && forall w :: 1 <= w < s.count ==>
         && s.observed[w] < GENERATIONS
         && (s.observed[w] != s.generation ==>
               Active(s.caller) && Ready(s.workers[w]) && (s.observed[w] + 1) % GENERATIONS == s.generation)
         && (Working(s.workers[w]) ==> Active(s.caller))
  }

  predicate Unfinished<V>(s: State<V>, w: nat)
    requires Shaped(s) && w < s.count
  {
    Working(s.workers[w]) || Behind(s, w)
  }

  ghost function UnfinishedSet<V>(s: State<V>): set<nat>
    requires Shaped(s)
  {
    set w: nat | 1 <= w < s.count && Unfinished(s, w)
  }

  ghost predicate PendingExact<V>(s: State<V>)
    requires Shaped(s)
  {
    s.pending == |UnfinishedSet(s)|
  }

  /** A sleeping thread whose condition already holds is about to be notified. */
  ghost predicate NoLostWakeup<V>(s: State<V>)
    requires Shaped(s)
  {
    && (forall w :: 1 <= w < s.count && s.workers[w].AwaitReady? ==>
          && (s.observed[w] != s.generation ==> s.caller.NotifyReady?)
          && (s.stopping ==> s.caller.NotifyStop?))
    && (s.caller.AwaitFinish? && s.pending == 0 ==>
          s.mutex.Some? && 1 <= s.mutex.value < s.count && s.workers[s.mutex.value].NotifyDone?)
  }

  ghost predicate StopExact<V>(s: State<V>)
    requires Shaped(s)
  {
    && (s.stopping <==> Halting(s.caller))
    && (forall w :: 1 <= w < s.count && s.workers[w].Exited? ==> s.stopping)
    && (s.caller.Stopped? ==> AllExited(s))
  }

  /** How far a thread's loop over its own blocks has come in the current run. */
  function Position<V>(s: State<V>, t: nat): Progress
    requires Shaped(s) && t < s.count
  {
    if t == 0 then
      match s.caller
      case NotifyReady => Between(0)
      case Executing(p) => p
      case _ => Between(s.blocks)
    else
      match s.workers[t]
      case Running(p) => p
      case _ => if Behind(s, t) then Between(t) else Between(s.blocks)
  }

  /** A loop position is one of the thread's own blocks, or past the last block. */
  predicate Placed<V>(s: State<V>, t: nat, p: Progress)
    requires s.count >= 1
  {
    match p
    case Between(n) => n >= s.blocks || n % s.count == t
    case Inside(b, k) => b < s.blocks && b % s.count == t && s.job.Some? && k <= s.job.value.length(b)
  }

  /** A thread is inside execute, where job_ and blocks_ are read without the mutex. */
  predicate InExecute<V>(s: State<V>, t: nat)
    requires Shaped(s) && t < s.count
  {
    if t == 0 then s.caller.Executing? else s.workers[t].Running?
  }

  predicate Sized<V>(s: State<V>) {
    s.task.Some? && 0 < |s.memory| == |s.cells| == |s.errors| == |s.starts| == |s.runner|
  }

  ghost predicate Untouched<V>(s: State<V>, b: nat)
    requires Sized(s) && b < |s.memory|
  {
    s.starts[b] == 0 && s.errors[b] == None && s.cells[b] == s.memory[b]
  }

  ghost predicate Finished<V>(s: State<V>, b: nat)
    requires Sized(s) && b < |s.memory| && s.count >= 1
  {
    var r := BlockReply(s.task.value, b, s.memory[b]);
    s.starts[b] == 1 && s.runner[b] == b % s.count && s.cells[b] == r.value && s.errors[b] == FaultOf(r)
  }

  ghost predicate Started<V>(s: State<V>, b: nat, k: nat)
    requires Sized(s) && b < |s.memory| && s.count >= 1
  {
    && s.starts[b] == 1 && s.runner[b] == b % s.count && s.errors[b] == None
    && Replay(s.task.value, b, k, s.memory[b]) == Ok(s.cells[b])
  }

  ghost predicate BlockAt<V>(s: State<V>, b: nat, p: Progress)
    requires Sized(s) && b < |s.memory| && s.count >= 1
  {
    if b < p.block then Finished(s, b)
    else if p.Inside? && b == p.block then Started(s, b, p.k)
    else Untouched(s, b)
  }

  /** Between runs, the memory and the result are those of the last run. */
  ghost predicate Settled<V>(s: State<V>) {
    s.task.Some? ==>
      && s.cells == RunCells(s.task.value, s.memory)
      && s.outcome == Some(FirstFault(RunFaults(s.task.value, s.memory)))
      && |s.starts| == |s.runner| == |s.memory|
      && s.count >= 1
      && forall b :: 0 <= b < |s.memory| ==> s.starts[b] == 1 && s.runner[b] == b % s.count
  }

  ghost predicate MemoryExact<V>(s: State<V>)
    requires Shaped(s)
  {
    if Preparing(s.caller) then
      Sized(s) && forall b :: 0 <= b < |s.memory| ==> Untouched(s, b)
    else if Active(s.caller) || s.caller.Rethrow? then
      && Sized(s) && s.blocks == |s.memory|
      && (Active(s.caller) ==> s.job == s.task)
      && (forall t: nat :: t < s.count ==> Placed(s, t, Position(s, t)))
      && (forall b :: 0 <= b < s.blocks ==> BlockAt(s, b, Position(s, b % s.count)))
    else Settled(s)
  }

  /** The part of the invariant that speaks of synchronization only. */
  ghost predicate Control<V>(s: State<V>) {
    && Shaped(s)
    && MutexExact(s)
    && Generations(s)
    && PendingExact(s)
    && NoLostWakeup(s)
    && StopExact(s)
  }

  ghost predicate Inv<V>(s: State<V>) {
    Control(s) && MemoryExact(s)
  }

  // ----- every action keeps the invariant -----

  /** Actions that touch neither the memory nor any thread's loop position keep MemoryExact. */
  lemma MemoryFrame<V>(s: State<V>, z: State<V>)
    requires Shaped(s) && Shaped(z) && MemoryExact(s)
    requires s.count == z.count && s.task == z.task && s.memory == z.memory && s.cells == z.cells
    requires s.errors == z.errors && s.starts == z.starts && s.runner == z.runner
    requires s.blocks == z.blocks && s.job == z.job && s.outcome == z.outcome
    requires Preparing(s.caller) == Preparing(z.caller) && Active(s.caller) == Active(z.caller)
    requires s.caller.Rethrow? == z.caller.Rethrow?
    requires forall t: nat :: t < s.count ==> Position(s, t) == Position(z, t)
    ensures MemoryExact(z)
  {
    if Preparing(s.caller) {
      assert forall b :: 0 <= b < |s.memory| && Untouched(s, b) ==> Untouched(z, b);
    } else if Active(s.caller) || s.caller.Rethrow? {
      forall b | 0 <= b < z.blocks
        ensures BlockAt(z, b, Position(z, b % z.count))
      {
        assert BlockAt(s, b, Position(s, b % s.count));
      }
      forall t: nat | t < z.count
        ensures Placed(z, t, Position(z, t))
      {
        assert Placed(s, t, Position(s, t));
      }
    }
  }

  lemma SameUnfinished<V>(s: State<V>, z: State<V>)
    requires Shaped(s) && Shaped(z) && s.count == z.count && PendingExact(s) && s.pending == z.pending
    requires forall w: nat :: 1 <= w < s.count ==> (Unfinished(s, w) <==> Unfinished(z, w))
    ensures PendingExact(z)
  {
    assert UnfinishedSet(z) == UnfinishedSet(s);
  }

  lemma PublishControl<V>(s: State<V>)
    requires Control(s) && Enabled(s, Thread(0)) && s.caller.Publish?
    ensures Control(CallerStep(s))
  {
    var z := CallerStep(s);
    RangeSize(UnfinishedSet(z), 1, s.count);
  }

  /** pending_ == 0 means that no worker still owes work to the current run. */
  lemma NonePending<V>(s: State<V>)
    requires Control(s) && s.pending == 0
    ensures forall w :: 1 <= w < s.count ==> s.observed[w] == s.generation && !Working(s.workers[w])
  {
    forall w | 1 <= w < s.count
      ensures s.observed[w] == s.generation && !Working(s.workers[w])
    {
      assert w !in UnfinishedSet(s);
    }
  }

  lemma CallerLockControl<V>(s: State<V>)
    requires Control(s) && Enabled(s, Thread(0))
    requires s.caller.LockPublish? || s.caller.LockFinish? || s.caller.LockStop? || s.caller.SetStop?
    ensures Control(CallerStep(s))
  {
    SameUnfinished(s, CallerStep(s));
  }

  lemma CallerNotifyControl<V>(s: State<V>)
    requires Control(s) && Enabled(s, Thread(0))
    requires s.caller.NotifyReady? || s.caller.NotifyStop?
    ensures Control(CallerStep(s))
  {
    SameUnfinished(s, CallerStep(s));
  }

  lemma CallerEndControl<V>(s: State<V>)
    requires Control(s) && Enabled(s, Thread(0)) && (s.caller.Join? || s.caller.Rethrow?)
    ensures Control(CallerStep(s))
  {
    SameUnfinished(s, CallerStep(s));
  }

  lemma CallerFinishControl<V>(s: State<V>)
    requires Control(s) && Enabled(s, Thread(0)) && s.caller.TestFinish?
    ensures Control(CallerStep(s))
  {
    SameUnfinished(s, CallerStep(s));
    if s.pending == 0 {
      NonePending(s);
    }
  }

  lemma LockControl<V>(s: State<V>, w: nat)
    requires Control(s) && w >= 1 && Enabled(s, Thread(w)) && (s.workers[w].LockReady? || s.workers[w].LockDone?)
    ensures Control(WorkerStep(s, w))
  {
    SameUnfinished(s, WorkerStep(s, w));
  }

  lemma TestControl<V>(s: State<V>, w: nat)
    requires Control(s) && w >= 1 && Enabled(s, Thread(w)) && s.workers[w].TestReady?
    ensures Control(WorkerStep(s, w))
  {
    SameUnfinished(s, WorkerStep(s, w));
  }

  lemma CountControl<V>(s: State<V>, w: nat)
    requires Control(s) && w >= 1 && Enabled(s, Thread(w)) && s.workers[w].CountDone?
    ensures Control(WorkerStep(s, w))
  {
    var z := WorkerStep(s, w);
    assert UnfinishedSet(z) == UnfinishedSet(s) - {w};
  }

  lemma NotifyDoneControl<V>(s: State<V>, w: nat)
    requires Control(s) && w >= 1 && Enabled(s, Thread(w)) && s.workers[w].NotifyDone?
    ensures Control(WorkerStep(s, w))
  {
    SameUnfinished(s, WorkerStep(s, w));
  }

  /** A micro-step of the strided loop leaves the synchronization state alone. */
  lemma RunningControl<V>(s: State<V>, w: nat)
    requires Control(s) && w >= 1 && Enabled(s, Thread(w)) && s.workers[w].Running?
    ensures Control(WorkerStep(s, w))
  {
    SameUnfinished(s, WorkerStep(s, w));
  }

  lemma ExecutingControl<V>(s: State<V>)
    requires Control(s) && Enabled(s, Thread(0)) && s.caller.Executing?
    ensures Control(CallerStep(s))
  {
    SameUnfinished(s, CallerStep(s));
  }

  lemma CallControl<V>(s: State<V>, a: Action<V>)
    requires Control(s) && Enabled(s, a) && (a.CallRun? || a.CallStop?)
    ensures Control(Step(s, a))
  {
    SameUnfinished(s, Step(s, a));
  }

  lemma SpuriousControl<V>(s: State<V>, t: nat)
    requires Control(s) && Enabled(s, Spurious(t))
    ensures Control(Step(s, Spurious(t)))
  {
    SameUnfinished(s, Step(s, Spurious(t)));
  }

  // ----- memory -----

  /** The blocks of thread t after b, in its stride, begin at b + count. */
  lemma NextInStride(b: nat, c: nat, count: nat)
    requires count >= 1 && b < c < b + count
    ensures c % count != b % count
  {
    var q, r := b / count, b % count;
    assert b == q * count + r;
    if r + (c - b) < count {
      assert c == q * count + (r + (c - b));
      ModUnique(c, count, q, r + (c - b));
    } else {
      assert c == (q + 1) * count + (r + (c - b) - count);
      ModUnique(c, count, q + 1, r + (c - b) - count);
    }
  }

  lemma StrideKeepsOwner(b: nat, count: nat)
    requires count >= 1
    ensures (b + count) % count == b % count
  {
    ModUnique(b + count, count, b / count + 1, b % count);
  }

  lemma ModUnique(a: nat, m: nat, q: nat, r: nat)
    requires m >= 1 && r < m && a == q * m + r
    ensures a % m == r && a / m == q
  {
    var d := a / m - q;
    assert a == (a / m) * m + a % m;
    assert d * m == r - a % m;
    assert d >= 1 ==> d * m >= m;
    assert d <= -1 ==> d * m <= -1 * m;
  }

  lemma PublishedPositions<V>(s: State<V>, t: nat)
    requires Control(s) && Enabled(s, Thread(0)) && s.caller.Publish? && t < s.count
    ensures var z := CallerStep(s); Position(z, t) == Between(t) && Placed(z, t, Between(t))
  {
    ModUnique(t, s.count, 0, t);
  }

  lemma PublishedPlaces<V>(s: State<V>)
    requires Control(s) && Enabled(s, Thread(0)) && s.caller.Publish?
    ensures var z := CallerStep(s); forall t: nat :: t < s.count ==> Placed(z, t, Position(z, t))
    ensures var z := CallerStep(s); forall b: nat :: Position(z, b % s.count) == Between(b % s.count)
  {
    var z := CallerStep(s);
    forall t: nat | t < s.count
      ensures Placed(z, t, Position(z, t))
    {
      PublishedPositions(s, t);
    }
    forall b: nat
      ensures Position(z, b % s.count) == Between(b % s.count)
    {
      PublishedPositions(s, b % s.count);
    }
  }

  lemma PublishMemory<V>(s: State<V>)
    requires Inv(s) && Enabled(s, Thread(0)) && s.caller.Publish?
    ensures MemoryExact(CallerStep(s))
  {
    var z := CallerStep(s);
    PublishedPlaces(s);
    PublishedBlocks(s, z);
  }

  lemma PublishedBlocks<V>(s: State<V>, z: State<V>)
    requires Shaped(s) && Shaped(z) && MemoryExact(s) && s.caller.Publish? && z.caller.NotifyReady?
    requires z.task == s.task && z.memory == s.memory && z.cells == s.cells && z.errors == s.errors
    requires z.starts == s.starts && z.runner == s.runner && z.blocks == |s.memory| && z.job == s.task
    requires forall t: nat :: t < z.count ==> Placed(z, t, Position(z, t))
    requires forall b: nat :: Position(z, b % z.count) == Between(b % z.count)
    ensures MemoryExact(z)
  {
    forall b | 0 <= b < z.blocks
      ensures BlockAt(z, b, Position(z, b % z.count))
    {
      assert Untouched(s, b);
      assert b % z.count <= b;
    }
  }

  lemma FinishMemory<V>(s: State<V>)
    requires Inv(s) && Enabled(s, Thread(0)) && s.caller.TestFinish?
    ensures MemoryExact(CallerStep(s))
  {
    var z := CallerStep(s);
    if s.pending == 0 {
      NonePending(s);
      forall b | 0 <= b < z.blocks
        ensures BlockAt(z, b, Position(z, b % z.count))
      {
        assert BlockAt(s, b, Position(s, b % s.count));
      }
    } else {
      MemoryFrame(s, z);
    }
  }

  lemma AllFinished<V>(s: State<V>)
    requires Inv(s) && s.caller.Rethrow?
    ensures forall b :: 0 <= b < |s.memory| ==> Finished(s, b)
  {
    forall b | 0 <= b < s.blocks
      ensures Finished(s, b)
    {
      assert BlockAt(s, b, Position(s, b % s.count));
      NobodyBehind(s, b % s.count);
    }
  }

  lemma FinishedResults<V>(s: State<V>)
    requires Sized(s) && s.count >= 1
    requires forall b :: 0 <= b < |s.memory| ==> Finished(s, b)
    ensures s.cells == RunCells(s.task.value, s.memory)
    ensures s.errors == RunFaults(s.task.value, s.memory)
  {
    forall b | 0 <= b < |s.memory|
      ensures s.cells[b] == RunCells(s.task.value, s.memory)[b]
      ensures s.errors[b] == RunFaults(s.task.value, s.memory)[b]
    {
      assert Finished(s, b);
    }
  }

  lemma RethrowMemory<V>(s: State<V>)
    requires Inv(s) && Enabled(s, Thread(0)) && s.caller.Rethrow?
    ensures MemoryExact(CallerStep(s))
  {
    AllFinished(s);
    FinishedResults(s);
    assert forall b :: 0 <= b < |s.memory| ==> Finished(s, b) && s.starts[b] == 1 && s.runner[b] == b % s.count;
  }

  lemma NobodyBehind<V>(s: State<V>, t: nat)
    requires Control(s) && !Active(s.caller) && t < s.count
    ensures t > 0 ==> s.observed[t] == s.generation && !Working(s.workers[t])
  {
  }

  /** A callback micro-step extends the block's replay by one, or ends it. */
  lemma AdvanceCallback<V>(s: State<V>, p: Progress, b: nat)
    requires Sized(s) && b < |s.memory| && s.count >= 1 && s.job == s.task
    requires p.Inside? && p.block == b && p.k <= s.job.value.length(b) && Started(s, b, p.k)
    ensures var job := s.job.value;
      if p.k == job.length(b) then Ok(s.cells[b]) == BlockReply(job, b, s.memory[b])
      else
        var r := job.step(b, p.k, s.cells[b]);
        r == Replay(job, b, p.k + 1, s.memory[b]) && (r.Throw? ==> r == BlockReply(job, b, s.memory[b]))
  {
    var job := s.job.value;
    if p.k < job.length(b) && job.step(b, p.k, s.cells[b]).Throw? {
      ReplayKeepsThrow(job, b, p.k + 1, job.length(b), s.memory[b]);
    }
  }

  /** One micro-step of thread t, as far as memory and positions are concerned. */
  ghost predicate Advances<V>(s: State<V>, t: nat, p: Progress, z: State<V>) {
    && Shaped(s) && Shaped(z) && t < s.count && p == Position(s, t) && InExecute(s, t) && Defined(s, p)
    && Active(s.caller) && Active(z.caller)
    && var (m, q) := Advance(s, t, p);
    && z == m.(caller := z.caller, workers := z.workers)
    && Position(z, t) == (if q.Some? then q.value else Between(s.blocks))
    && forall u: nat :: u < s.count && u != t ==> Position(z, u) == Position(s, u)
  }

  lemma AdvancePlaced<V>(s: State<V>, t: nat, p: Progress, z: State<V>)
    requires Shaped(s) && MemoryExact(s) && Advances(s, t, p, z)
    ensures forall u: nat :: u < z.count ==> Placed(z, u, Position(z, u))
  {
    forall u: nat | u < z.count
      ensures Placed(z, u, Position(z, u))
    {
      assert Placed(s, u, Position(s, u));
      if u == t && p.Inside? {
        StrideKeepsOwner(p.block, s.count);
      }
    }
  }

  /** It moves its own position and touches its own block only. */
  lemma AdvanceMemory<V>(s: State<V>, t: nat, p: Progress, z: State<V>)
    requires Shaped(s) && MemoryExact(s) && Advances(s, t, p, z)
    ensures MemoryExact(z)
  {
    AdvancePlaced(s, t, p, z);
    forall b | 0 <= b < z.blocks
      ensures BlockAt(z, b, Position(z, b % z.count))
    {
      assert BlockAt(s, b, Position(s, b % s.count));
      if b % s.count == t {
        assert Placed(s, t, p);
        if p.Inside? && p.block < b < p.block + s.count {
          NextInStride(p.block, b, s.count);
        }
        if p.Inside? && b == p.block {
          AdvanceCallback(s, p, b);
        }
      }
    }
  }

  lemma ExecutingMemory<V>(s: State<V>, t: nat)
    requires Inv(s) && Enabled(s, Thread(t))
    requires if t == 0 then s.caller.Executing? else s.workers[t].Running?
    ensures MemoryExact(Step(s, Thread(t)))
  {
    AdvanceMemory(s, t, Position(s, t), Step(s, Thread(t)));
  }

  lemma CallMemory<V>(s: State<V>, a: Action<V>)
    requires Inv(s) && Enabled(s, a) && a.CallRun?
    ensures MemoryExact(Step(s, a))
  {
    var z := Step(s, a);
    if |a.memory| == 0 {
      assert z.cells == RunCells(a.job, a.memory);
      assert RunFaults(a.job, a.memory) == [];
    }
  }

  lemma WakeupMemory<V>(s: State<V>, a: Action<V>)
    requires Inv(s) && Enabled(s, a) && (a.CallStop? || a.Spurious?)
    ensures MemoryExact(Step(s, a))
  {
    MemoryFrame(s, Step(s, a));
  }

  /** The invariant is inductive. */
  lemma StepKeepsInv<V>(s: State<V>, a: Action<V>)
    requires Inv(s) && Enabled(s, a)
    ensures Inv(Step(s, a))
  {
    match a
    case CallRun(_, _, _) =>
      CallControl(s, a);
      CallMemory(s, a);
    case CallStop =>
      CallControl(s, a);
      WakeupMemory(s, a);
    case Spurious(t) =>
      SpuriousControl(s, t);
      WakeupMemory(s, a);
    case Thread(t) =>
      if t == 0 {
        CallerKeepsInv(s);
      } else {
        WorkerKeepsInv(s, t);
      }
  }

  lemma CallerKeepsInv<V>(s: State<V>)
    requires Inv(s) && Enabled(s, Thread(0))
    ensures Inv(CallerStep(s))
  {
    if s.caller.Publish? {
      PublishControl(s);
      PublishMemory(s);
    } else if s.caller.TestFinish? {
      CallerFinishControl(s);
      FinishMemory(s);
    } else if s.caller.Rethrow? {
      CallerEndControl(s);
      RethrowMemory(s);
    } else if s.caller.Executing? {
      ExecutingControl(s);
      ExecutingMemory(s, 0);
    } else if s.caller.NotifyReady? || s.caller.NotifyStop? {
      CallerNotifyControl(s);
      CallerNotifyMemory(s);
    } else if s.caller.Join? {
      CallerEndControl(s);
      CallerNotifyMemory(s);
    } else {
      CallerLockControl(s);
      CallerLockMemory(s);
    }
  }

  lemma CallerLockMemory<V>(s: State<V>)
    requires Inv(s) && Enabled(s, Thread(0))
    requires s.caller.LockPublish? || s.caller.LockFinish? || s.caller.LockStop? || s.caller.SetStop?
    ensures MemoryExact(CallerStep(s))
  {
    MemoryFrame(s, CallerStep(s));
  }

  lemma CallerNotifyMemory<V>(s: State<V>)
    requires Inv(s) && Enabled(s, Thread(0)) && (s.caller.NotifyReady? || s.caller.NotifyStop? || s.caller.Join?)
    ensures MemoryExact(CallerStep(s))
  {
    MemoryFrame(s, CallerStep(s));
  }

  lemma WaitingPosition<V>(s: State<V>, w: nat, t: nat)
    requires Shaped(s) && Generations(s) && StopExact(s) && w >= 1 && Enabled(s, Thread(w)) && !s.workers[w].Running? && t < s.count
    ensures Position(WorkerStep(s, w), t) == Position(s, t)
  {
  }

  lemma WorkerMemory<V>(s: State<V>, w: nat)
    requires Inv(s) && w >= 1 && Enabled(s, Thread(w)) && !s.workers[w].Running?
    ensures MemoryExact(WorkerStep(s, w))
  {
    var z := WorkerStep(s, w);
    forall t: nat | t < s.count
      ensures Position(z, t) == Position(s, t)
    {
      WaitingPosition(s, w, t);
    }
    MemoryFrame(s, z);
  }

  lemma WorkerKeepsInv<V>(s: State<V>, w: nat)
    requires Inv(s) && w >= 1 && Enabled(s, Thread(w))
    ensures Inv(WorkerStep(s, w))
  {
    if s.workers[w].Running? {
      RunningControl(s, w);
      ExecutingMemory(s, w);
    } else {
      WorkerMemory(s, w);
      if s.workers[w].TestReady? {
        TestControl(s, w);
      } else if s.workers[w].CountDone? {
        CountControl(s, w);
      } else if s.workers[w].NotifyDone? {
        NotifyDoneControl(s, w);
      } else {
        LockControl(s, w);
      }
    }
  }

  // ----- theorems -----

  lemma ConstructedInv<V>(count: nat)
    requires count >= 1
    ensures Inv(Constructed<V>(count))
  {
    var s := Constructed<V>(count);
    assert UnfinishedSet(s) == {};
  }

  lemma {:induction false} LeadsKeepsInv<V>(s: State<V>, schedule: seq<Action<V>>, z: State<V>)
    requires Inv(s) && Leads(s, schedule, z)
    ensures Inv(z) && z.count == s.count
    decreases |schedule|
  {
    if schedule != [] {
      StepKeepsInv(s, schedule[0]);
      LeadsKeepsInv(Step(s, schedule[0]), schedule[1..], z);
    }
  }

  /** The barrier in every state any schedule can reach. */
  lemma ReachableBarrier<V>(count: nat, schedule: seq<Action<V>>, z: State<V>)
    requires count >= 1 && Leads(Constructed(count), schedule, z)
    ensures Shaped(z) && z.count == count
    ensures forall w :: 1 <= w < count ==>
      z.observed[w] == z.generation || (z.observed[w] + 1) % GENERATIONS == z.generation
    ensures z.pending == |set w: nat | 1 <= w < count && (Working(z.workers[w]) || Behind(z, w))|
    ensures forall t: nat :: t < count && InExecute(z, t) ==>
      z.job.Some? && z.job == z.task && z.blocks == |z.memory| == |z.cells| == |z.errors|
    ensures forall t: nat, u: nat :: t < u < count ==>
      !(InCriticalSection(z, t) && InCriticalSection(z, u))
  {
    ConstructedInv<V>(count);
    LeadsKeepsInv(Constructed(count), schedule, z);
    assert UnfinishedSet(z) == set w: nat | 1 <= w < count && (Working(z.workers[w]) || Behind(z, w));
  }

  predicate InCriticalSection<V>(s: State<V>, t: nat)
    requires Shaped(s) && t < s.count
  {
    if t == 0 then CallerHolds(s.caller) else WorkerHolds(s.workers[t])
  }

  /** The published job, its block count, and the error slots never change under an executing thread. */
  lemma PublicationStable<V>(s: State<V>, a: Action<V>, t: nat)
    requires Inv(s) && Enabled(s, a) && t < s.count && InExecute(s, t)
    ensures var z := Step(s, a);
      z.job == s.job && z.blocks == s.blocks && |z.errors| == |s.errors| && |z.cells| == |s.cells|
  {
    if a == Thread(0) && s.caller.TestFinish? && s.pending == 0 {
      NonePending(s);
    }
  }

  predicate Internal<V>(schedule: seq<Action<V>>) {
    forall i :: 0 <= i < |schedule| ==> schedule[i].Thread? || schedule[i].Spurious?
  }

  lemma {:induction false} InternalKeepsTask<V>(s: State<V>, schedule: seq<Action<V>>, z: State<V>)
    requires Leads(s, schedule, z) && Internal(schedule)
    ensures z.task == s.task && z.memory == s.memory
    decreases |schedule|
  {
    if schedule != [] {
      InternalKeepsTask(Step(s, schedule[0]), schedule[1..], z);
    }
  }

  /** When run returns, whatever ran before it and however its threads interleaved, every block ran
      exactly once on thread block mod count, its cell is what the block computes alone, and the
      exception of the lowest failing block, if any, is the one rethrown. */
  lemma RunDelivers<V>(s: State<V>, job: Job<V>, points: nat, memory: seq<V>,
                       schedule: seq<Action<V>>, z: State<V>)
    requires Inv(s) && |memory| == Blocks(points) && Enabled(s, CallRun(job, points, memory))
    requires Internal(schedule) && Leads(Step(s, CallRun(job, points, memory)), schedule, z)
    requires z.caller.Idle?
    ensures Inv(z)
    ensures z.cells == RunCells(job, memory)
    ensures z.outcome == Some(FirstFault(RunFaults(job, memory)))
    ensures |z.starts| == |z.runner| == Blocks(points)
    ensures forall b :: 0 <= b < Blocks(points) ==> z.starts[b] == 1 && z.runner[b] == b % s.count
  {
    var a := CallRun(job, points, memory);
    StepKeepsInv(s, a);
    LeadsKeepsInv(Step(s, a), schedule, z);
    InternalKeepsTask(Step(s, a), schedule, z);
  }

  /** The rethrown exception is the one of the lowest failing block. */
  lemma {:induction false} FirstFaultIsLowest(errors: seq<Option<Fault>>)
    ensures FirstFault(errors).Completed? <==> forall b :: 0 <= b < |errors| ==> errors[b].None?
    ensures forall b :: 0 <= b < |errors| && errors[b].Some? && (forall c :: 0 <= c < b ==> errors[c].None?) ==>
      FirstFault(errors) == Threw(errors[b].value)
  {
    if errors != [] && errors[0].None? {
      var rest := errors[1..];
      FirstFaultIsLowest(rest);
      forall b | 0 <= b < |errors| && errors[b].Some? && (forall c :: 0 <= c < b ==> errors[c].None?)
        ensures FirstFault(errors) == Threw(errors[b].value)
      {
        assert rest[b - 1] == errors[b];
        assert forall c :: 0 <= c < b - 1 ==> rest[c] == errors[c + 1];
      }
      assert forall b :: 0 <= b < |rest| ==> rest[b] == errors[b + 1];
      assert forall b :: 1 <= b < |errors| ==> errors[b] == rest[b - 1];
    }
  }

  /** Two executors of any sizes and histories, under any two schedules, return the same. */
  lemma RunIndependent<V>(s1: State<V>, s2: State<V>, job: Job<V>, points: nat, memory: seq<V>,
                          schedule1: seq<Action<V>>, schedule2: seq<Action<V>>, z1: State<V>, z2: State<V>)
    requires Inv(s1) && Inv(s2) && |memory| == Blocks(points)
    requires Enabled(s1, CallRun(job, points, memory)) && Enabled(s2, CallRun(job, points, memory))
    requires Internal(schedule1) && Leads(Step(s1, CallRun(job, points, memory)), schedule1, z1)
    requires Internal(schedule2) && Leads(Step(s2, CallRun(job, points, memory)), schedule2, z2)
    requires z1.caller.Idle? && z2.caller.Idle?
    ensures z1.cells == z2.cells && z1.outcome == z2.outcome
  {
    RunDelivers(s1, job, points, memory, schedule1, z1);
    RunDelivers(s2, job, points, memory, schedule2, z2);
  }
}
