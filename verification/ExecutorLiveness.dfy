/**
  Why run and the destructor finish: no reachable state is stuck, and a rank over unstarted,
  executing and unacknowledged work falls with every action except a spurious wakeup, which
  raises it by at most two.
 */
module ExecutorLiveness {
  import opened Basics
  import opened Executor
  import opened ExecutorSafety

  predicate AtRest(c: Caller) {
    c.Idle? || c.Stopped?
  }

  lemma CallerDefined<V>(s: State<V>)
    requires Inv(s) && s.caller.Executing?
    ensures Defined(s, s.caller.at)
  {
    assert Placed(s, 0, Position(s, 0));
  }

  /** With the mutex free, a worker that owes work to the run, or must exit, can move. */
  lemma WorkerCanMove<V>(s: State<V>, w: nat)
    requires Inv(s) && 1 <= w < s.count && s.mutex.None?
    requires (Unfinished(s, w) && !s.caller.NotifyReady?) || (s.caller.Join? && !s.workers[w].Exited?)
    ensures Enabled(s, Thread(w))
  {
    if s.workers[w].Running? {
      assert Placed(s, w, Position(s, w));
    }
  }

  lemma HolderCanMove<V>(s: State<V>, t: nat)
    requires Inv(s) && s.mutex == Some(t)
    ensures t < s.count && Enabled(s, Thread(t))
  {
    if t > 0 && s.workers[t].CountDone? {
      assert t in UnfinishedSet(s);
    }
  }

  /** Unless the caller is at rest, some thread can take a step that is not a spurious wakeup:
      no notification is ever lost, and no memory access is ever undefined. */
  lemma NeverStuck<V>(s: State<V>)
    requires Inv(s) && !AtRest(s.caller)
    ensures exists t: nat :: t < s.count && Enabled(s, Thread(t))
  {
    if s.mutex.Some? {
      HolderCanMove(s, s.mutex.value);
    } else if s.caller.AwaitFinish? {
      assert UnfinishedSet(s) != {};
      var w :| w in UnfinishedSet(s);
      WorkerCanMove(s, w);
    } else if s.caller.Join? && !AllExited(s) {
      var w :| 1 <= w < s.count && !s.workers[w].Exited?;
      WorkerCanMove(s, w);
    } else {
      if s.caller.Executing? {
        CallerDefined(s);
      }
      assert Enabled(s, Thread(0));
    }
  }

  // ----- the rank -----

  /** The micro-steps a thread still has to make from block n of its stride on. */
  ghost function Remaining<V>(job: Job<V>, blocks: nat, count: nat, n: nat): nat
    decreases blocks - n
  {
    if n >= blocks || count == 0 then 0
    else job.length(n) + 2 + Remaining(job, blocks, count, n + count)
  }

  ghost function Owed<V>(s: State<V>, n: nat): nat {
    if s.task.None? then 0 else Remaining(s.task.value, |s.memory|, s.count, n)
  }

  ghost function ProgressRank<V>(s: State<V>, p: Progress): int {
    match p
    case Between(n) => Owed(s, n)
    case Inside(b, k) => Owed(s, b) - 1 - k
  }

  ghost function WorkerRank<V>(s: State<V>, w: nat): int
    requires Shaped(s) && w < s.count
  {
    (match s.workers[w]
     case Exited => 0
     case AwaitReady => 0
     case TestReady => 1
     case LockReady => 2
     case NotifyDone => 4
     case CountDone => 5
     case LockDone => 6
     case Running(p) => 7 + ProgressRank(s, p))
    + if Behind(s, w) then Owed(s, w) + 8 else 0
  }

  ghost function NewWork<V>(s: State<V>): seq<int> {
    seq(s.count, w requires 0 <= w < s.count => if w == 0 then 0 else Owed(s, w) + 8)
  }

  ghost function CallerRank<V>(s: State<V>): int {
    match s.caller
    case Idle => 0
    case Stopped => 0
    case Rethrow => 1
    case AwaitFinish => 2
    case TestFinish => 3
    case LockFinish => 4
    case Executing(p) => 5 + ProgressRank(s, p)
    case NotifyReady => 6 + Owed(s, 0) + 2 * s.count
    case Publish => 7 + Owed(s, 0) + 2 * s.count + Sum(NewWork(s))
    case LockPublish => 8 + Owed(s, 0) + 2 * s.count + Sum(NewWork(s))
    case Join => 1
    case NotifyStop => 2 + 2 * s.count
    case SetStop => 3 + 2 * s.count
    case LockStop => 4 + 2 * s.count
  }

  ghost function WorkerRanks<V>(s: State<V>): seq<int>
    requires Shaped(s)
  {
    seq(s.count, w requires 0 <= w < s.count => if w == 0 then 0 else WorkerRank(s, w))
  }

  ghost function Rank<V>(s: State<V>): int
    requires Shaped(s)
  {
    CallerRank(s) + Sum(WorkerRanks(s))
  }

  lemma ProgressRankFalls<V>(s: State<V>, t: nat, p: Progress)
    requires Inv(s) && t < s.count && p == Position(s, t) && InExecute(s, t) && Defined(s, p)
    ensures ProgressRank(s, p) >= 0
    ensures var q := Advance(s, t, p).1; q.Some? ==> ProgressRank(s, q.value) < ProgressRank(s, p)
  {
    assert Placed(s, t, p);
  }

  lemma RankNonNegative<V>(s: State<V>)
    requires Inv(s)
    ensures Rank(s) >= 0
  {
    forall t: nat | t < s.count && InExecute(s, t)
      ensures ProgressRank(s, Position(s, t)) >= 0
    {
      assert Placed(s, t, Position(s, t));
    }
    forall w: nat | 1 <= w < s.count
      ensures WorkerRank(s, w) >= 0
    {
      assert InExecute(s, w) ==> ProgressRank(s, Position(s, w)) >= 0;
    }
    SumNonNegative(WorkerRanks(s));
    SumNonNegative(NewWork(s));
    assert InExecute(s, 0) ==> ProgressRank(s, Position(s, 0)) >= 0;
  }

  ghost predicate SameRun<V>(s: State<V>, z: State<V>) {
    && Shaped(s) && Shaped(z) && s.count == z.count
    && s.task == z.task && s.memory == z.memory && s.generation == z.generation
  }

  lemma OneWorkerMoves<V>(s: State<V>, z: State<V>, w: nat)
    requires SameRun(s, z) && 1 <= w < s.count
    requires forall u :: 1 <= u < s.count && u != w ==> s.workers[u] == z.workers[u] && s.observed[u] == z.observed[u]
    ensures Sum(WorkerRanks(z)) == Sum(WorkerRanks(s)) - WorkerRank(s, w) + WorkerRank(z, w)
  {
    assert WorkerRanks(z) == WorkerRanks(s)[w := WorkerRank(z, w)];
    SumUpdate(WorkerRanks(s), w, WorkerRank(z, w));
  }

  lemma CallerStays<V>(s: State<V>, z: State<V>)
    requires SameRun(s, z) && s.caller == z.caller
    ensures CallerRank(s) == CallerRank(z)
  {
    assert NewWork(s) == NewWork(z);
  }

  lemma RunningRankFalls<V>(s: State<V>, w: nat)
    requires Inv(s) && w >= 1 && Enabled(s, Thread(w)) && s.workers[w].Running?
    ensures Rank(WorkerStep(s, w)) < Rank(s)
  {
    var z := WorkerStep(s, w);
    RunningOwnRank(s, w);
    OneWorkerMoves(s, z, w);
    CallerStays(s, z);
  }

  lemma RunningOwnRank<V>(s: State<V>, w: nat)
    requires Inv(s) && w >= 1 && Enabled(s, Thread(w)) && s.workers[w].Running?
    ensures WorkerRank(WorkerStep(s, w), w) < WorkerRank(s, w)
  {
    ProgressRankFalls(s, w, s.workers[w].at);
  }

  lemma OwnRankFalls<V>(s: State<V>, w: nat)
    requires Inv(s) && w >= 1 && Enabled(s, Thread(w)) && !s.workers[w].Running?
    ensures WorkerRank(WorkerStep(s, w), w) < WorkerRank(s, w) - if s.workers[w].NotifyDone? then 2 else 0
  {
    var z := WorkerStep(s, w);
    assert Owed(z, w) == Owed(s, w);
    if s.workers[w].TestReady? && s.observed[w] != s.generation {
      assert !s.stopping;
    }
  }

  lemma WaitingRankFalls<V>(s: State<V>, w: nat)
    requires Inv(s) && w >= 1 && Enabled(s, Thread(w)) && !s.workers[w].Running?
    ensures Rank(WorkerStep(s, w)) < Rank(s)
  {
    var z := WorkerStep(s, w);
    OwnRankFalls(s, w);
    OneWorkerMoves(s, z, w);
    if z.caller == s.caller {
      CallerStays(s, z);
    }
  }

  lemma WorkerRankFalls<V>(s: State<V>, w: nat)
    requires Inv(s) && w >= 1 && Enabled(s, Thread(w))
    ensures Rank(WorkerStep(s, w)) < Rank(s)
  {
    if s.workers[w].Running? {
      RunningRankFalls(s, w);
    } else {
      WaitingRankFalls(s, w);
    }
  }

  lemma PublishRankFalls<V>(s: State<V>)
    requires Inv(s) && Enabled(s, Thread(0)) && s.caller.Publish?
    ensures Rank(CallerStep(s)) < Rank(s)
  {
    var z := CallerStep(s);
    forall w: nat | 1 <= w < s.count
      ensures WorkerRank(z, w) == WorkerRank(s, w) + (Owed(s, w) + 8)
    {
      assert Behind(z, w) && !Behind(s, w);
      assert Owed(z, w) == Owed(s, w);
    }
    SumOfSums(WorkerRanks(s), NewWork(s), WorkerRanks(z));
  }

  lemma NotifyRankFalls<V>(s: State<V>)
    requires Inv(s) && Enabled(s, Thread(0)) && (s.caller.NotifyReady? || s.caller.NotifyStop?)
    ensures Rank(CallerStep(s)) < Rank(s)
  {
    var z := CallerStep(s);
    forall w: nat | 1 <= w < s.count
      ensures WorkerRank(z, w) <= WorkerRank(s, w) + 2
    {
      assert Owed(z, w) == Owed(s, w);
      assert Behind(z, w) == Behind(s, w);
    }
    SumBound(WorkerRanks(s), WorkerRanks(z), 2);
  }

  lemma ExecutingRankFalls<V>(s: State<V>)
    requires Inv(s) && Enabled(s, Thread(0)) && s.caller.Executing?
    ensures Rank(CallerStep(s)) < Rank(s)
  {
    assert WorkerRanks(CallerStep(s)) == WorkerRanks(s);
    ProgressRankFalls(s, 0, s.caller.at);
  }

  lemma LockRankFalls<V>(s: State<V>)
    requires Inv(s) && Enabled(s, Thread(0))
    requires s.caller.LockPublish? || s.caller.LockFinish? || s.caller.LockStop? || s.caller.SetStop?
    ensures Rank(CallerStep(s)) < Rank(s)
  {
    assert WorkerRanks(CallerStep(s)) == WorkerRanks(s);
    assert NewWork(s) == NewWork(CallerStep(s));
  }

  lemma EndRankFalls<V>(s: State<V>)
    requires Inv(s) && Enabled(s, Thread(0)) && (s.caller.TestFinish? || s.caller.Rethrow? || s.caller.Join?)
    ensures Rank(CallerStep(s)) < Rank(s)
  {
    assert WorkerRanks(CallerStep(s)) == WorkerRanks(s);
  }

  lemma CallerRankFalls<V>(s: State<V>)
    requires Inv(s) && Enabled(s, Thread(0))
    ensures Rank(CallerStep(s)) < Rank(s)
  {
    if s.caller.Publish? {
      PublishRankFalls(s);
    } else if s.caller.NotifyReady? || s.caller.NotifyStop? {
      NotifyRankFalls(s);
    } else if s.caller.Executing? {
      ExecutingRankFalls(s);
    } else if s.caller.TestFinish? || s.caller.Rethrow? || s.caller.Join? {
      EndRankFalls(s);
    } else {
      LockRankFalls(s);
    }
  }

  lemma SpuriousRank<V>(s: State<V>, t: nat)
    requires Inv(s) && Enabled(s, Spurious(t))
    ensures Rank(Step(s, Spurious(t))) <= Rank(s) + 2
  {
    var z := Step(s, Spurious(t));
    if t == 0 {
      assert WorkerRanks(z) == WorkerRanks(s);
    } else {
      OneWorkerMoves(s, z, t);
      CallerStays(s, z);
    }
  }

  function SpuriousCount<V>(schedule: seq<Action<V>>): nat {
    if schedule == [] then 0
    else (if schedule[0].Spurious? then 1 else 0) + SpuriousCount(schedule[1..])
  }

  /** A call makes at most Rank + 3 * (number of spurious wakeups) steps, however it is scheduled. */
  lemma {:induction false} StepsBounded<V>(s: State<V>, schedule: seq<Action<V>>, z: State<V>)
    requires Inv(s) && Internal(schedule) && Leads(s, schedule, z)
    ensures Inv(z) && 0 <= Rank(z) && |schedule| <= Rank(s) - Rank(z) + 3 * SpuriousCount(schedule)
    decreases |schedule|
  {
    if schedule == [] {
      RankNonNegative(s);
    } else {
      var a := schedule[0];
      StepKeepsInv(s, a);
      StepsBounded(Step(s, a), schedule[1..], z);
      if a.Spurious? {
        SpuriousRank(s, a.t);
      } else if a.t == 0 {
        CallerRankFalls(s);
      } else {
        WorkerRankFalls(s, a.t);
      }
    }
  }

  /** Once a schedule is as long as the bound, the call has returned: whenever it has not, the
      schedule is shorter and can be extended. */
  lemma RunCompletes<V>(s: State<V>, a: Action<V>, schedule: seq<Action<V>>, z: State<V>)
    requires Inv(s) && Enabled(s, a) && (a.CallRun? || a.CallStop?)
    requires Internal(schedule) && Leads(Step(s, a), schedule, z)
    ensures Inv(z)
    ensures |schedule| <= Rank(Step(s, a)) + 3 * SpuriousCount(schedule)
    ensures AtRest(z.caller) || exists t: nat :: t < z.count && Enabled(z, Thread(t))
  {
    StepKeepsInv(s, a);
    StepsBounded(Step(s, a), schedule, z);
    if !AtRest(z.caller) {
      NeverStuck(z);
    }
  }
}
