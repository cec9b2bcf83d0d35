/**
  The executor as its callers see it: an object whose Run drives the step system under an arbitrary
  scheduler and returns what the blocks compute alone.
 */
module CpuExecutorObject {
  import opened Basics
  import opened Executor
  import opened ExecutorSafety
  import opened ExecutorLiveness

  /** Somewhere between the call of run on these arguments and its return. */
  ghost predicate InRun<V>(s: State<V>, job: Job<V>, memory: seq<V>, count: nat) {
    && Inv(s) && s.count == count && Rank(s) >= 0
    && s.task == Some(job) && s.memory == memory
    && (Active(s.caller) || Preparing(s.caller) || s.caller.Rethrow? || s.caller.Idle?)
  }

  lemma CallStarts<V>(s: State<V>, job: Job<V>, points: nat, memory: seq<V>)
    requires Inv(s) && Enabled(s, CallRun(job, points, memory))
    ensures InRun(Step(s, CallRun(job, points, memory)), job, memory, s.count)
  {
    StepKeepsInv(s, CallRun(job, points, memory));
    RankNonNegative(Step(s, CallRun(job, points, memory)));
  }

  lemma ThreadContinues<V>(s: State<V>, job: Job<V>, memory: seq<V>, t: nat)
    requires InRun(s, job, memory, s.count) && !s.caller.Idle? && Enabled(s, Thread(t))
    ensures InRun(Step(s, Thread(t)), job, memory, s.count)
    ensures Rank(Step(s, Thread(t))) < Rank(s)
  {
    StepKeepsInv(s, Thread(t));
    RankNonNegative(Step(s, Thread(t)));
    if t == 0 {
      CallerRankFalls(s);
    } else {
      WorkerRankFalls(s, t);
    }
  }

  lemma WakeupContinues<V>(s: State<V>, job: Job<V>, memory: seq<V>, t: nat)
    requires InRun(s, job, memory, s.count) && Enabled(s, Spurious(t))
    ensures InRun(Step(s, Spurious(t)), job, memory, s.count)
    ensures Rank(Step(s, Spurious(t))) <= Rank(s) + 2
  {
    StepKeepsInv(s, Spurious(t));
    RankNonNegative(Step(s, Spurious(t)));
    SpuriousRank(s, t);
  }

  /** The synchronization part of a state says nothing about the type of the cells. */
  lemma ControlAnyCells<V, W>(s: State<V>, z: State<W>)
    requires Control(s)
    requires s.count == z.count && s.mutex == z.mutex && s.pending == z.pending && s.generation == z.generation
    requires s.stopping == z.stopping && s.caller == z.caller && s.workers == z.workers && s.observed == z.observed
    ensures Control(z)
  {
    assert UnfinishedSet(z) == UnfinishedSet(s);
  }

  /** One choice of the scheduler: any thread that can move, or a spurious wakeup while some remain. */
  method Schedule<V>(s: State<V>, wakeups: nat) returns (z: State<V>, left: nat, ghost t: nat)
    requires Inv(s) && !AtRest(s.caller)
    ensures if left == wakeups then Enabled(s, Thread(t)) && z == Step(s, Thread(t))
            else left == wakeups - 1 && Enabled(s, Spurious(t)) && z == Step(s, Spurious(t))
  {
    if wakeups > 0 && exists u: nat :: u < s.count && Enabled(s, Spurious(u)) {
      var u: nat :| u < s.count && Enabled(s, Spurious(u));
      z, left, t := Step(s, Spurious(u)), wakeups - 1, u;
    } else {
      NeverStuck(s);
      var u: nat :| u < s.count && Enabled(s, Thread(u));
      z, left, t := Step(s, Thread(u)), wakeups, u;
    }
  }

  /** A call of run on an idle executor, from its first to its last action. */
  method Execute<V>(s: State<V>, job: Job<V>, points: nat, memory: seq<V>) returns (z: State<V>)
    requires Inv(s) && s.caller.Idle? && |memory| == Blocks(points)
    ensures Control(z) && z.caller.Idle? && z.count == s.count
    ensures z.cells == RunCells(job, memory) && z.outcome == Some(FirstFault(RunFaults(job, memory)))
  {
    CallStarts(s, job, points, memory);
    z := Step(s, CallRun(job, points, memory));
    var wakeups: nat := *;
    while !z.caller.Idle?
      invariant InRun(z, job, memory, s.count)
      decreases Rank(z) + 3 * wakeups
    {
      var next, left, t := Schedule(z, wakeups);
      if left == wakeups {
        ThreadContinues(z, job, memory, t);
      } else {
        WakeupContinues(z, job, memory, t);
      }
      z, wakeups := next, left;
    }
  }

  class CpuExecutor {
    const count: nat
    var mutex: Option<nat>
    var blocks: nat
    var pending: nat
    var generation: nat
    var stopping: bool
    var errors: seq<Option<Fault>>
    // Where each worker stands in worker_loop, and its local `observed`.
    var workers: seq<Worker>
    var observed: seq<nat>

    /** The step system's state while the caller is outside Run. */
    function Between<V>(): State<V>
      reads this
    {
      State(count, mutex, None, blocks, pending, generation, stopping, errors, [], Idle,
            workers, observed, None, None, [], [], [])
    }

    ghost predicate Valid()
      reads this
    {
      Control(Between<bool>())
    }

    constructor (budget: nat, capacity: nat)
      requires Concurrency(budget, capacity).Some?
      ensures Valid() && count == Concurrency(budget, capacity).value
    {
      var n := Concurrency(budget, capacity).value;
      count := n;
      mutex, blocks, pending, generation, stopping, errors := None, 0, 0, 0, false, [];
      workers := seq(n, _ => LockReady);
      observed := seq(n, _ => 0);
      new;
      ConstructedInv<bool>(n);
      ControlAnyCells<bool, bool>(Constructed(n), Between());
    }

    /** run, for every scheduler that wakes threads spuriously only finitely often. */
    method Run<V>(job: Job<V>, points: nat, memory: seq<V>) returns (cells: seq<V>, outcome: Outcome)
      requires Valid() && |memory| == Blocks(points)
      modifies this
      ensures Valid()
      ensures cells == RunCells(job, memory)
      ensures outcome == FirstFault(RunFaults(job, memory))
    {
      ControlAnyCells<bool, V>(Between(), Between());
      var state := Execute(Between<V>(), job, points, memory);
      cells, outcome := state.cells, state.outcome.value;
      mutex, blocks, pending, generation := state.mutex, state.blocks, state.pending, state.generation;
      stopping, errors, workers, observed := state.stopping, state.errors, state.workers, state.observed;
      ControlAnyCells<V, bool>(state, Between());
    }
  }

  /** Constructing an executor: a zero budget is refused. */
  method MakeExecutor(budget: nat, capacity: nat) returns (r: Option<CpuExecutor>)
    ensures r.None? <==> budget == 0
    ensures r.Some? ==> fresh(r.value) && r.value.Valid() && Concurrency(budget, capacity) == Some(r.value.count)
  {
    if budget == 0 {
      return None;
    }
    var executor := new CpuExecutor(budget, capacity);
    r := Some(executor);
  }
}
