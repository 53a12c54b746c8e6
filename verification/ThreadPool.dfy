/** The worker pool: a bounded FIFO of tasks, any number of workers, and a destructor that waits for
    them. Each critical section is one step; the workers interleave freely. */
module ThreadPool {
  import opened Wrappers

  /** `accepted` and `started` are the tasks in the order they were enqueued and dequeued, `finished`
      those whose run is over, `running` what each busy worker runs. */
  datatype Pool<T> = Pool(
    workers: nat, capacity: nat, tasks: seq<T>, stopping: bool,
    running: map<nat, T>, exited: set<nat>,
    accepted: seq<T>, started: seq<T>, finished: multiset<T>)

  function Create<T>(workers: nat, maxQueueSize: nat): Pool<T> {
    Pool(workers, if maxQueueSize == 0 then 1 else maxQueueSize, [], false, map[], {}, [], [], multiset{})
  }

  datatype Step<T> = Enqueue(task: T) | Start(worker: nat) | Finish(worker: nat) | Exit(worker: nat) | Stop

  predicate Idle(pool: Pool, worker: nat) {
    worker < pool.workers && worker !in pool.running && worker !in pool.exited
  }

  /** When a step can happen: a waiting worker goes on when there is a task or the pool stops, and
      then takes a task as long as there is one. */
  predicate Enabled<T>(pool: Pool<T>, step: Step<T>) {
    match step
    case Enqueue(_) => true
    case Start(worker) => Idle(pool, worker) && pool.tasks != []
    case Finish(worker) => worker in pool.running
    case Exit(worker) => Idle(pool, worker) && pool.stopping && pool.tasks == []
    case Stop => true
  }

  /** Whether `enqueue` takes a task. */
  predicate Accepts(pool: Pool) {
    !pool.stopping && |pool.tasks| < pool.capacity
  }

  function Apply<T>(pool: Pool<T>, step: Step<T>): Pool<T>
    requires Enabled(pool, step)
  {
    match step
    case Enqueue(task) =>
      if Accepts(pool) then pool.(tasks := pool.tasks + [task], accepted := pool.accepted + [task]) else pool
    case Start(worker) =>
      pool.(running := pool.running[worker := pool.tasks[0]], tasks := pool.tasks[1..],
            started := pool.started + [pool.tasks[0]])
    case Finish(worker) =>
      pool.(running := pool.running - {worker}, finished := pool.finished + multiset{pool.running[worker]})
    case Exit(worker) => pool.(exited := pool.exited + {worker})
    case Stop => pool.(stopping := true)
  }

  ghost predicate Run<T>(pools: seq<Pool<T>>, steps: seq<Step<T>>, workers: nat, maxQueueSize: nat) {
    && |pools| == |steps| + 1
    && pools[0] == Create(workers, maxQueueSize)
    && forall i :: 0 <= i < |steps| ==> Enabled(pools[i], steps[i]) && pools[i + 1] == Apply(pools[i], steps[i])
  }

  /** The destructor has returned: it stopped the pool and every worker it joined is gone. */
  ghost predicate Destroyed(pool: Pool) {
    pool.stopping && forall worker :: 0 <= worker < pool.workers ==> worker in pool.exited
  }

  function RunningTasks<T>(running: map<nat, T>, workers: nat): multiset<T> {
    if workers == 0 then multiset{}
    else RunningTasks(running, workers - 1) + if workers - 1 in running then multiset{running[workers - 1]} else multiset{}
  }

  /** Tasks leave the queue in the order they entered it; a task that left it is running or done;
      nobody leaves before the pool stops and the queue is empty. */
  ghost predicate Invariant<T>(pool: Pool<T>) {
    && 0 < pool.capacity && |pool.tasks| <= pool.capacity
    && pool.accepted == pool.started + pool.tasks
    && multiset(pool.started) == pool.finished + RunningTasks(pool.running, pool.workers)
    && (forall worker :: worker in pool.running ==> worker < pool.workers && worker !in pool.exited)
    && (forall worker :: worker in pool.exited ==> worker < pool.workers)
    && (pool.exited != {} ==> pool.stopping && pool.tasks == [])
  }

  lemma {:induction false} RunningSplit<T>(running: map<nat, T>, workers: nat, worker: nat, task: T)
    requires worker !in running
    ensures RunningTasks(running[worker := task], workers) ==
            RunningTasks(running, workers) + if worker < workers then multiset{task} else multiset{}
  {
    if workers > 0 {
      RunningSplit(running, workers - 1, worker, task);
    }
  }

  lemma {:induction false} NoneRunning<T>(running: map<nat, T>, workers: nat)
    requires forall worker :: 0 <= worker < workers ==> worker !in running
    ensures RunningTasks(running, workers) == multiset{}
  {
    if workers > 0 {
      NoneRunning(running, workers - 1);
    }
  }

  lemma CreateHolds<T>(workers: nat, maxQueueSize: nat)
    ensures Invariant(Create<T>(workers, maxQueueSize))
  {
    NoneRunning<T>(map[], workers);
  }

  lemma StepKeeps<T>(pool: Pool<T>, step: Step<T>)
    requires Invariant(pool) && Enabled(pool, step)
    ensures Invariant(Apply(pool, step))
    ensures Apply(pool, step).workers == pool.workers && Apply(pool, step).capacity == pool.capacity
  {
    match step
    case Start(worker) => StartKeeps(pool, worker);
    case Finish(worker) => FinishKeeps(pool, worker);
    case Enqueue(task) => assert pool.started + (pool.tasks + [task]) == (pool.started + pool.tasks) + [task];
    case _ =>
  }

  lemma StartKeeps<T>(pool: Pool<T>, worker: nat)
    requires Invariant(pool) && Enabled(pool, Start(worker))
    ensures Invariant(Apply(pool, Start(worker)))
  {
    var task, rest := pool.tasks[0], pool.tasks[1..];
    RunningSplit(pool.running, pool.workers, worker, task);
    assert pool.tasks == [task] + rest;
    assert pool.started + pool.tasks == (pool.started + [task]) + rest;
    assert multiset(pool.started + [task]) == multiset(pool.started) + multiset{task};
  }

  lemma FinishKeeps<T>(pool: Pool<T>, worker: nat)
    requires Invariant(pool) && Enabled(pool, Finish(worker))
    ensures Invariant(Apply(pool, Finish(worker)))
  {
    var rest, task := pool.running - {worker}, pool.running[worker];
    RunningSplit(rest, pool.workers, worker, task);
    assert rest[worker := task] == pool.running;
  }

  /** Over every interleaving: the queue is bounded, dequeueing is first in first out, and every task
      accepted so far is done, running or queued. */
  lemma {:induction false} HandoffIsFifo<T>(
    pools: seq<Pool<T>>, steps: seq<Step<T>>, workers: nat, maxQueueSize: nat, k: nat)
    requires Run(pools, steps, workers, maxQueueSize) && k < |pools|
    ensures Invariant(pools[k])
    ensures pools[k].workers == workers && pools[k].capacity == if maxQueueSize == 0 then 1 else maxQueueSize
  {
    if k == 0 {
      CreateHolds<T>(workers, maxQueueSize);
    } else {
      HandoffIsFifo(pools, steps, workers, maxQueueSize, k - 1);
      assert pools[k - 1 + 1] == Apply(pools[k - 1], steps[k - 1]);
      StepKeeps(pools[k - 1], steps[k - 1]);
    }
  }

  lemma {:induction false} StoppedByStop<T>(
    pools: seq<Pool<T>>, steps: seq<Step<T>>, workers: nat, maxQueueSize: nat, k: nat)
    requires Run(pools, steps, workers, maxQueueSize) && k < |pools|
    ensures pools[k].stopping <==> Stop in steps[..k]
  {
    if k > 0 {
      StoppedByStop(pools, steps, workers, maxQueueSize, k - 1);
      assert steps[..k] == steps[..k - 1] + [steps[k - 1]];
      assert pools[k - 1 + 1] == Apply(pools[k - 1], steps[k - 1]);
    }
  }

  /** A task is refused exactly if the pool was told to stop before, or as many accepted tasks as the queue
      holds have not been started. */
  lemma RefusedExactlyWhenFull<T>(
    pools: seq<Pool<T>>, steps: seq<Step<T>>, workers: nat, maxQueueSize: nat, k: nat, task: T)
    requires Run(pools, steps, workers, maxQueueSize) && k < |steps| && steps[k] == Enqueue(task)
    ensures var pool := pools[k];
            var waiting, room := |pool.accepted| - |pool.started|, if maxQueueSize == 0 then 1 else maxQueueSize;
            pools[k + 1].accepted ==
            pool.accepted + if Stop in steps[..k] || waiting >= room then [] else [task]
  {
    HandoffIsFifo(pools, steps, workers, maxQueueSize, k);
    StoppedByStop(pools, steps, workers, maxQueueSize, k);
    assert pools[k + 1] == Apply(pools[k], steps[k]);
    assert |pools[k].accepted| == |pools[k].started| + |pools[k].tasks|;
  }

  /** What the workers still have to do before the destructor can return. */
  function Left<T>(pool: Pool<T>): int {
    2 * |pool.tasks| + |pool.running| + pool.workers - |pool.exited|
  }

  predicate ByWorker(step: Step) {
    step.Start? || step.Finish? || step.Exit?
  }

  /** The destructor comes to an end: as long as it waits some worker can go on, every step of a worker is
      one less to do, and nobody adds to that. */
  lemma StopWindsDown<T>(pool: Pool<T>, step: Step<T>)
    requires Invariant(pool) && pool.stopping
    ensures !Destroyed(pool) ==> exists next: Step<T> :: ByWorker(next) && Enabled(pool, next)
    ensures Enabled(pool, step) ==>
              Left(Apply(pool, step)) == Left(pool) - (if ByWorker(step) then 1 else 0) && Apply(pool, step).stopping
    ensures Left(pool) >= 0
  {
    if !Destroyed(pool) {
      var worker: nat :| worker < pool.workers && worker !in pool.exited;
      var next: Step<T> := if worker in pool.running then Finish(worker)
                           else if pool.tasks != [] then Start(worker) else Exit(worker);
      assert ByWorker(next) && Enabled(pool, next);
    }
    ExitedFit(pool.exited, pool.workers);
    if step.Start? && Enabled(pool, step) {
      assert pool.running[step.worker := pool.tasks[0]].Keys == pool.running.Keys + {step.worker};
      assert |pool.running[step.worker := pool.tasks[0]]| == |pool.running| + 1;
    }
    if step.Finish? && Enabled(pool, step) {
      assert (pool.running - {step.worker})[step.worker := pool.running[step.worker]] == pool.running;
    }
  }

  lemma {:induction false} ExitedFit(exited: set<nat>, workers: nat)
    requires forall worker :: worker in exited ==> worker < workers
    ensures |exited| <= workers
  {
    if workers == 0 {
      assert exited == {};
    } else {
      ExitedFit(exited - {workers - 1}, workers - 1);
    }
  }

  /** With at least one worker, when the destructor returns every accepted task has been run exactly
      as often as it was enqueued. */
  lemma AllTasksRun<T>(pools: seq<Pool<T>>, steps: seq<Step<T>>, workers: nat, maxQueueSize: nat, k: nat)
    requires Run(pools, steps, workers, maxQueueSize) && k < |pools| && Destroyed(pools[k])
    requires workers > 0
    ensures pools[k].finished == multiset(pools[k].accepted)
  {
    HandoffIsFifo(pools, steps, workers, maxQueueSize, k);
    var pool := pools[k];
    assert 0 in pool.exited;
    NoneRunning(pool.running, pool.workers);
    assert pool.accepted == pool.started;
  }

  /** Without workers a task can be accepted and never run. */
  lemma NoWorkersLoseTasks<T>(task: T, maxQueueSize: nat)
    ensures exists pools: seq<Pool<T>>, steps: seq<Step<T>> ::
              && Run(pools, steps, 0, maxQueueSize) && Destroyed(pools[|steps|])
              && pools[|steps|].finished != multiset(pools[|steps|].accepted)
  {
    var start := Create<T>(0, maxQueueSize);
    var queued := Apply(start, Enqueue(task));
    var stopped := Apply(queued, Stop);
    var pools, steps := [start, queued, stopped], [Enqueue(task), Stop];
    assert forall i :: 0 <= i < |steps| ==> Enabled(pools[i], steps[i]) && pools[i + 1] == Apply(pools[i], steps[i]);
    assert Run(pools, steps, 0, maxQueueSize);
    assert stopped.accepted == [task];
  }

  // ------------------------------------------------------------ the object

  class ThreadPool<T> {
    const workers: nat
    const maxQueueSize: nat
    var tasks: seq<T>
    var stop: bool
    ghost var pool: Pool<T>

    ghost predicate Valid()
      reads this
    {
      && Invariant(pool) && pool.tasks == tasks && pool.stopping == stop
      && pool.capacity == maxQueueSize && pool.workers == workers
    }

    constructor (numThreads: nat, maxQueueSize: nat)
      ensures Valid() && pool == Create(numThreads, maxQueueSize)
    {
      workers := numThreads;
      this.maxQueueSize := if maxQueueSize == 0 then 1 else maxQueueSize;
      tasks, stop := [], false;
      pool := Create(numThreads, maxQueueSize);
      new;
      CreateHolds<T>(numThreads, maxQueueSize);
    }

    method Enqueue(task: T) returns (accepted: bool)
      requires Valid()
      modifies this
      ensures Valid() && pool == Apply(old(pool), Step.Enqueue(task)) && accepted == Accepts(old(pool))
    {
      StepKeeps(pool, Step.Enqueue(task));
      pool := Apply(pool, Step.Enqueue(task));
      if stop || |tasks| >= maxQueueSize {
        return false;
      }
      tasks := tasks + [task];
      return true;
    }

    /** One pass of a worker's loop from its wait to the task it takes; None ends the worker. The wait
        is over when the pool stops or there is a task. */
    method Take(worker: nat) returns (task: Option<T>)
      requires Valid() && Idle(pool, worker) && (stop || tasks != [])
      modifies this
      ensures Valid()
      ensures if old(tasks) == [] then task == None && pool == Apply(old(pool), Exit(worker))
              else task == Some(old(tasks)[0]) && pool == Apply(old(pool), Start(worker))
    {
      if stop && tasks == [] {
        StepKeeps(pool, Exit(worker));
        pool := Apply(pool, Exit(worker));
        return None;
      }
      StepKeeps(pool, Start(worker));
      pool := Apply(pool, Start(worker));
      task := Some(tasks[0]);
      tasks := tasks[1..];
    }

    method BeginStop()
      requires Valid()
      modifies this
      ensures Valid() && pool == Apply(old(pool), Stop)
    {
      StepKeeps(pool, Stop);
      pool := Apply(pool, Stop);
      stop := true;
    }
  }
}
