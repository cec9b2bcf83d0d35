/**
  The synchronous block executor of src/registration/cpu_executor.hpp as a step system: one
  caller and count - 1 workers share a mutex and two condition variables. Every acquisition,
  critical section, wait, wakeup, notification and callback micro-step is one action, and any
  enabled action may come next, spurious wakeups included.
 */
module Executor {
  import opened Basics

  const BLOCK_SIZE: nat := 256
  const MAX_THREADS: nat := 64
  /** generation_ is a 64-bit counter: it wraps. */
  const GENERATIONS: nat := 0x1_0000_0000_0000_0000

  /** The number of 256-point blocks covering count points. */
  function Blocks(count: nat): (b: nat)
    ensures BLOCK_SIZE * b >= count
    ensures b > 0 ==> BLOCK_SIZE * (b - 1) < count
  {
    count / BLOCK_SIZE + (if count % BLOCK_SIZE != 0 then 1 else 0)
  }

  /** The constructor's thread count, or None where it throws on a zero budget. */
  function Concurrency(budget: nat, capacity: nat): (count: Option<nat>)
    ensures count.None? <==> budget == 0
    ensures count.Some? ==> 1 <= count.value <= MAX_THREADS && count.value <= budget && count.value <= Max(1, Blocks(capacity))
    ensures count.Some? ==> count.value == budget || count.value == MAX_THREADS || count.value == Max(1, Blocks(capacity))
  {
    if budget == 0 then None
    else Some(Min(Min(budget, MAX_THREADS), Max(1, Blocks(capacity))))
  }

  // ----- callbacks -----

  /** The identity of a captured exception. */
  type Fault = nat

  datatype Reply<+V> = Ok(value: V) | Throw(value: V, fault: Fault)

  /** A terminating callback: on block b it makes length(b) micro-steps on the block's own cell,
      each of which may throw. */
  datatype Job<!V> = Job(length: nat -> nat, step: (nat, nat, V) -> Reply<V>)

  /** The cell of block b after the first k micro-steps, run alone from cell v. */
  ghost function Replay<V>(job: Job<V>, b: nat, k: nat, v: V): Reply<V> {
    if k == 0 then Ok(v)
    else match Replay(job, b, k - 1, v)
      case Throw(u, f) => Throw(u, f)
      case Ok(u) => job.step(b, k - 1, u)
  }

  ghost function BlockReply<V>(job: Job<V>, b: nat, v: V): Reply<V> {
    Replay(job, b, job.length(b), v)
  }

  ghost function FaultOf<V>(r: Reply<V>): Option<Fault> {
    match r
    case Ok(_) => None
    case Throw(_, f) => Some(f)
  }

  lemma {:induction false} ReplayKeepsThrow<V>(job: Job<V>, b: nat, k: nat, n: nat, v: V)
    requires k <= n && Replay(job, b, k, v).Throw?
    ensures Replay(job, b, n, v) == Replay(job, b, k, v)
    decreases n
  {
    if k < n {
      ReplayKeepsThrow(job, b, k, n - 1, v);
    }
  }

  datatype Outcome = Completed | Threw(fault: Fault)

  /** run's final scan: the first stored exception is rethrown. */
  function FirstFault(errors: seq<Option<Fault>>): Outcome {
    if errors == [] then Completed
    else if errors[0].Some? then Threw(errors[0].value)
    else FirstFault(errors[1..])
  }

  /** What run must do, stated without threads: every block run alone on its own cell. */
  ghost function RunCells<V>(job: Job<V>, memory: seq<V>): seq<V> {
    seq(|memory|, b requires 0 <= b < |memory| => BlockReply(job, b, memory[b]).value)
  }

  ghost function RunFaults<V>(job: Job<V>, memory: seq<V>): seq<Option<Fault>> {
    seq(|memory|, b requires 0 <= b < |memory| => FaultOf(BlockReply(job, b, memory[b])))
  }

  // ----- state -----

  /** Where a thread's strided loop stands: before the test for a block, or inside a callback. */
  datatype Progress = Between(block: nat) | Inside(block: nat, k: nat)

  datatype Caller =
    | Idle
    | LockPublish | Publish | NotifyReady
    | Executing(at: Progress)
    | LockFinish | TestFinish | AwaitFinish | Rethrow
    | LockStop | SetStop | NotifyStop | Join | Stopped

  datatype Worker =
    | LockReady | TestReady | AwaitReady
    | Running(at: Progress)
    | LockDone | CountDone | NotifyDone
    | Exited

  /** Thread 0 is the caller; workers[w] and observed[w] are used for 1 <= w < count. The fields
      task, memory, starts and runner are history: the job of the last run, the cells it was given,
      how often each block was started and by which thread. */
  datatype State<!V> = State(
    count: nat,
    mutex: Option<nat>,
    job: Option<Job<V>>,
    blocks: nat,
    pending: nat,
    generation: nat,
    stopping: bool,
    errors: seq<Option<Fault>>,
    cells: seq<V>,
    caller: Caller,
    workers: seq<Worker>,
    observed: seq<nat>,
    outcome: Option<Outcome>,
    task: Option<Job<V>>,
    memory: seq<V>,
    starts: seq<nat>,
    runner: seq<nat>)

  datatype Action<!V> =
    | CallRun(job: Job<V>, points: nat, memory: seq<V>)
    | CallStop
    | Thread(t: nat)
    | Spurious(t: nat)

  function Constructed<V>(count: nat): State<V>
    requires count >= 1
  {
    State(count, None, None, 0, 0, 0, false, [], [], Idle,
          seq(count, _ => LockReady), seq(count, _ => 0), None, None, [], [], [])
  }

  // ----- actions -----

  predicate Shaped<V>(s: State<V>) {
    1 <= s.count == |s.workers| == |s.observed|
  }

  predicate Exists<V>(s: State<V>, b: nat) {
    b < |s.errors| && b < |s.cells| && b < |s.starts| && b < |s.runner|
  }

  /** The memory accesses of the next micro-step are within what was allocated for the run. */
  predicate Defined<V>(s: State<V>, p: Progress) {
    match p
    case Between(b) => b < s.blocks ==> s.job.Some? && Exists(s, b)
    case Inside(b, _) => s.job.Some? && Exists(s, b)
  }

  /** One micro-step of the strided loop; None when the loop is over. */
  function Advance<V>(s: State<V>, t: nat, p: Progress): (r: (State<V>, Option<Progress>))
    requires Defined(s, p)
    ensures r.0 == s.(cells := r.0.cells, errors := r.0.errors, starts := r.0.starts, runner := r.0.runner)
  {
    match p
    case Between(b) =>
      if b >= s.blocks then (s, None)
      else (s.(starts := s.starts[b := s.starts[b] + 1], runner := s.runner[b := t]), Some(Inside(b, 0)))
    case Inside(b, k) =>
      if k >= s.job.value.length(b) then (s, Some(Between(b + s.count)))
      else match s.job.value.step(b, k, s.cells[b])
        case Ok(v) => (s.(cells := s.cells[b := v]), Some(Inside(b, k + 1)))
        case Throw(v, f) =>
          (s.(cells := s.cells[b := v], errors := s.errors[b := Some(f)]), Some(Between(b + s.count)))
  }

  function WakeAll(workers: seq<Worker>): (r: seq<Worker>)
    ensures |r| == |workers|
  {
    seq(|workers|, w requires 0 <= w < |workers| =>
      if workers[w].AwaitReady? then LockReady else workers[w])
  }

  predicate AllExited<V>(s: State<V>) {
    forall w :: 1 <= w < |s.workers| ==> s.workers[w].Exited?
  }

  predicate CallerEnabled<V>(s: State<V>) {
    match s.caller
    case Idle => false
    case AwaitFinish => false
    case Stopped => false
    case LockPublish => s.mutex.None?
    case LockFinish => s.mutex.None?
    case LockStop => s.mutex.None?
    case Executing(p) => Defined(s, p)
    case Join => AllExited(s)
    case _ => true
  }

  function CallerStep<V>(s: State<V>): State<V>
    requires CallerEnabled(s) && Shaped(s)
  {
    match s.caller
    case LockPublish => s.(mutex := Some(0), caller := Publish)
    case Publish =>
      s.(job := s.task, blocks := |s.memory|, pending := s.count - 1,
         generation := (s.generation + 1) % GENERATIONS, mutex := None, caller := NotifyReady)
    case NotifyReady => s.(workers := WakeAll(s.workers), caller := Executing(Between(0)))
    case Executing(p) =>
      var (s', q) := Advance(s, 0, p);
      s'.(caller := if q.Some? then Executing(q.value) else LockFinish)
    case LockFinish => s.(mutex := Some(0), caller := TestFinish)
    case TestFinish =>
      if s.pending == 0 then s.(job := None, mutex := None, caller := Rethrow)
      else s.(mutex := None, caller := AwaitFinish)
    case Rethrow => s.(outcome := Some(FirstFault(s.errors)), caller := Idle)
    case LockStop => s.(mutex := Some(0), caller := SetStop)
    case SetStop => s.(stopping := true, mutex := None, caller := NotifyStop)
    case NotifyStop => s.(workers := WakeAll(s.workers), caller := Join)
    case Join => s.(caller := Stopped)
  }

  predicate WorkerEnabled<V>(s: State<V>, w: nat)
    requires w < |s.workers|
  {
    match s.workers[w]
    case LockReady => s.mutex.None?
    case LockDone => s.mutex.None?
    case AwaitReady => false
    case Exited => false
    case Running(p) => Defined(s, p)
    case CountDone => s.pending > 0
    case _ => true
  }

  function WorkerStep<V>(s: State<V>, w: nat): State<V>
    requires Shaped(s) && 1 <= w < s.count && WorkerEnabled(s, w)
  {
    match s.workers[w]
    case LockReady => s.(mutex := Some(w), workers := s.workers[w := TestReady])
    case TestReady =>
      if s.stopping then s.(mutex := None, workers := s.workers[w := Exited])
      else if s.generation != s.observed[w] then
        s.(mutex := None, observed := s.observed[w := s.generation], workers := s.workers[w := Running(Between(w))])
      else s.(mutex := None, workers := s.workers[w := AwaitReady])
    case Running(p) =>
      var (s', q) := Advance(s, w, p);
      s'.(workers := s.workers[w := if q.Some? then Running(q.value) else LockDone])
    case LockDone => s.(mutex := Some(w), workers := s.workers[w := CountDone])
    case CountDone =>
      s.(pending := s.pending - 1, workers := s.workers[w := if s.pending == 1 then NotifyDone else TestReady])
    case NotifyDone =>
      s.(workers := s.workers[w := TestReady],
         caller := if s.caller.AwaitFinish? then LockFinish else s.caller)
  }

  predicate Enabled<V>(s: State<V>, a: Action<V>) {
    && Shaped(s)
    && match a
       case CallRun(_, points, memory) => s.caller.Idle? && |memory| == Blocks(points)
       case CallStop => s.caller.Idle?
       case Thread(t) => t < s.count && if t == 0 then CallerEnabled(s) else WorkerEnabled(s, t)
       case Spurious(t) => t < s.count && if t == 0 then s.caller.AwaitFinish? else s.workers[t].AwaitReady?
  }

  function Step<V>(s: State<V>, a: Action<V>): State<V>
    requires Enabled(s, a)
  {
    match a
    case CallRun(job, points, memory) =>
      var n := |memory|;
      var t := s.(task := Some(job), memory := memory, cells := memory,
                  starts := seq(n, _ => 0), runner := seq(n, _ => 0));
      if n == 0 then t.(outcome := Some(Completed))
      else t.(errors := seq(n, _ => None), outcome := None, caller := LockPublish)
    case CallStop => s.(caller := LockStop)
    case Thread(t) => if t == 0 then CallerStep(s) else WorkerStep(s, t)
    case Spurious(t) =>
      if t == 0 then s.(caller := LockFinish) else s.(workers := s.workers[t := LockReady])
  }

  /** The schedule is possible from s and leads to z. */
  ghost predicate Leads<V>(s: State<V>, schedule: seq<Action<V>>, z: State<V>)
    decreases |schedule|
  {
    if schedule == [] then s == z
    else Enabled(s, schedule[0]) && Leads(Step(s, schedule[0]), schedule[1..], z)
  }
}
