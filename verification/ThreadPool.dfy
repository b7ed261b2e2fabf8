/** ThreadPool: workers, submitters, WaitAll callers and one controlling thread.

    PoolModel says what each mutex-protected section and each lone atomic store does to the
    fields of the pool, the class ThreadPool performs it in place, and PoolProtocol lets the
    threads interleave. */
module PoolModel {
  import opened Monitor

  const SIZE_MAX: nat := 0xFFFF_FFFF_FFFF_FFFF

  datatype Pool<T> = Pool(tasks: seq<T>, stopped: bool, running: bool, active: nat,
                          condition: CondVar, completed: CondVar)

  datatype Decision<T> = Exit | Retry | Take(task: T)

  /** Submit's section: false when the pool is stopped and the call throws. */
  function Submit<T>(p: Pool<T>, task: T): (Pool<T>, bool) {
    if p.stopped then (p, false) else (p.(tasks := p.tasks + [task]), true)
  }

  /** The worker's wait: true when its predicate held and it keeps the mutex. */
  function AwaitWork<T>(p: Pool<T>, w: Thread): (Pool<T>, bool) {
    if p.stopped || p.tasks != [] then (p.(condition := p.condition.Leave(w)), true)
    else (p.(condition := p.condition.Park(w)), false)
  }

  /** What the worker does between the wait and releasing the mutex.  It reads `stopped` again. */
  function Decide<T>(p: Pool<T>): (Pool<T>, Decision<T>) {
    if p.tasks != [] then (p.(tasks := p.tasks[1..], active := p.active + 1), Take(p.tasks[0]))
    else (p, if p.stopped then Exit else Retry)
  }

  function Finish<T>(p: Pool<T>): Pool<T> {
    p.(active := if p.active == 0 then SIZE_MAX else p.active - 1)
  }

  /** WaitAll's section: true when its predicate held and the call returns. */
  function WaitAll<T>(p: Pool<T>, t: Thread): (Pool<T>, bool) {
    if p.stopped || (p.tasks == [] && p.active == 0) then (p.(completed := p.completed.Leave(t)), true)
    else (p.(completed := p.completed.Park(t)), false)
  }

  function Stop<T>(p: Pool<T>): Pool<T> {
    p.(stopped := true, running := false)
  }

  /** Start's first store, made without the mutex; false when the pool already runs. */
  function BeginStart<T>(p: Pool<T>): (Pool<T>, bool) {
    if p.running then (p, false) else (p.(stopped := false), true)
  }

  function StoreRunning<T>(p: Pool<T>): Pool<T> {
    p.(running := true)
  }

  /** StopAndWait swaps the task queue for an empty one. */
  function SwapTasks<T>(p: Pool<T>): (Pool<T>, seq<T>) {
    (p.(tasks := []), p.tasks)
  }
}

/** The pool object, section by section. */
module ThreadPoolObject {
  import opened Monitor
  import M = PoolModel

  class ThreadPool<T> {
    var tasks: seq<T>
    var stopped: bool
    var running: bool
    var active: nat
    var condition: CondVar
    var completed: CondVar

    function Snapshot(): M.Pool<T>
      reads this
    {
      M.Pool(tasks, stopped, running, active, condition, completed)
    }

    constructor ()
      ensures Snapshot() == M.Pool([], true, false, 0, NOBODY, NOBODY)
    {
      tasks, stopped, running, active := [], true, false, 0;
      condition, completed := NOBODY, NOBODY;
    }

    method Submit(task: T) returns (accepted: bool)
      modifies this
      ensures (Snapshot(), accepted) == M.Submit(old(Snapshot()), task)
    {
      if stopped {
        return false;
      }
      tasks := tasks + [task];
      return true;
    }

    method AwaitWork(w: Thread) returns (proceeds: bool)
      modifies this
      ensures (Snapshot(), proceeds) == M.AwaitWork(old(Snapshot()), w)
    {
      proceeds := stopped || tasks != [];
      condition := if proceeds then condition.Leave(w) else condition.Park(w);
    }

    method Decide() returns (decision: M.Decision<T>)
      modifies this
      ensures (Snapshot(), decision) == M.Decide(old(Snapshot()))
    {
      if stopped && tasks == [] {
        return M.Exit;
      }
      if tasks == [] {
        return M.Retry;
      }
      decision := M.Take(tasks[0]);
      tasks := tasks[1..];
      active := active + 1;
    }

    method Finish()
      modifies this
      ensures Snapshot() == M.Finish(old(Snapshot()))
    {
      active := if active == 0 then M.SIZE_MAX else active - 1;
    }

    method WaitAll(t: Thread) returns (returns_: bool)
      modifies this
      ensures (Snapshot(), returns_) == M.WaitAll(old(Snapshot()), t)
    {
      returns_ := stopped || (tasks == [] && active == 0);
      completed := if returns_ then completed.Leave(t) else completed.Park(t);
    }

    method Stop()
      modifies this
      ensures Snapshot() == M.Stop(old(Snapshot()))
    {
      stopped := true;
      running := false;
    }

    method BeginStart() returns (begun: bool)
      modifies this
      ensures (Snapshot(), begun) == M.BeginStart(old(Snapshot()))
    {
      if running {
        return false;
      }
      stopped := false;
      return true;
    }

    method StoreRunning()
      modifies this
      ensures Snapshot() == M.StoreRunning(old(Snapshot()))
    {
      running := true;
    }

    method SwapTasks() returns (discarded: seq<T>)
      modifies this
      ensures (Snapshot(), discarded) == M.SwapTasks(old(Snapshot()))
    {
      discarded, tasks := tasks, [];
    }
  }
}

module PoolProtocol {
  import opened Basics
  import opened Monitor
  import opened PoolModel

  /** AtLock: about to take the mutex for the wait (or blocked in it); Deciding: past the wait,
      holding the mutex; Running(k): executing the k-th accepted task; Ran(k): done with it,
      not yet past the decrement; Announcing: about to notify `completed`. */
  datatype Worker = AtLock | Deciding | Running(task: nat) | Ran(task: nat) | Announcing | Exited

  /** What the controlling thread is in the middle of. */
  datatype Control = Idle
                   | StartStoring          // Start: `stopped` stored, `running` not yet
                   | Spawning(left: nat)   // Start: threads still to create
                   | StopNotifying(next: Next)
                   | Joining(next: Next)   // StopAndWait: joining every worker
                   | Swapping(next: Next)  // StopAndWait: about to swap the task queue away

  /** What follows the notify_all of Stop, the joins or the swap. */
  datatype Next = StopOnly | Return | Resize(numThreads: nat)

  datatype System<T> = System(pool: Pool<T>, numThreads: nat, control: Control,
                              mutex: Option<Thread>, workers: map<Thread, Worker>,
                              waiters: set<Thread>, notifies: nat,
                              accepted: seq<T>, started: nat, finished: set<nat>, discarded: seq<T>)

  datatype Event<T> = Submit(task: T) | SubmitNotify(pick: Thread)
                    | WorkerLock(w: Thread) | WorkerDecide(w: Thread) | TaskDone(w: Thread)
                    | WorkerDecrement(w: Thread) | WorkerAnnounce(w: Thread)
                    | CallWaitAll(t: Thread) | WaitAllSection(t: Thread) | SpuriousWake(t: Thread)
                    | BeginStart | StoreRunning | Spawn(w: Thread)
                    | BeginStop(next: Next) | StopNotify | Join | Swap

  function Initial<T>(numThreads: nat): System<T> {
    System(Pool([], true, false, 0, NOBODY, NOBODY), numThreads, Idle, None, map[], {}, 0, [], 0, {}, [])
  }

  predicate Enabled<T>(s: System<T>, e: Event<T>) {
    match e
    case Submit(_) => s.mutex.None?
    case SubmitNotify(pick) => s.notifies > 0 && s.pool.condition.CanWake(pick)
    case WorkerLock(w) => s.mutex.None? && w in s.workers && s.workers[w].AtLock? && w !in s.pool.condition.waiting
    case WorkerDecide(w) => w in s.workers && s.workers[w].Deciding?
    case TaskDone(w) => w in s.workers && s.workers[w].Running?
    case WorkerDecrement(w) => s.mutex.None? && w in s.workers && s.workers[w].Ran?
    case WorkerAnnounce(w) => w in s.workers && s.workers[w].Announcing?
    case CallWaitAll(t) => t !in s.waiters && t !in s.workers
    case WaitAllSection(t) => s.mutex.None? && t in s.waiters && t !in s.pool.completed.waiting
    case SpuriousWake(t) => t in s.pool.condition.waiting || t in s.pool.completed.waiting
    case BeginStart => s.control.Idle?
    case StoreRunning => s.control.StartStoring?
    case Spawn(w) => s.control.Spawning? && s.control.left > 0 && w !in s.workers && w !in s.waiters
    case BeginStop(_) => s.control.Idle? && s.mutex.None?
    case StopNotify => s.control.StopNotifying?
    case Join => s.control.Joining? && forall w <- s.workers :: s.workers[w].Exited?
    case Swap => s.control.Swapping?
  }

  function StartingOrIdle(left: nat): Control {
    if left == 0 then Idle else Spawning(left)
  }

  /** Start reads `running` and then stores `stopped`, without the mutex. */
  function Start<T>(s: System<T>): System<T> {
    var (p, begun) := PoolModel.BeginStart(s.pool);
    s.(pool := p, control := if begun then StartStoring else Idle)
  }

  function Decided<T>(s: System<T>, w: Thread): System<T> {
    var (p, decision) := Decide(s.pool);
    match decision
    case Exit => s.(pool := p, mutex := None, workers := s.workers[w := Exited])
    case Retry => s.(pool := p, mutex := None, workers := s.workers[w := AtLock])
    case Take(_) =>
      s.(pool := p, mutex := None, workers := s.workers[w := Running(s.started)], started := s.started + 1)
  }

  function Step<T>(s: System<T>, e: Event<T>): System<T>
    requires Enabled(s, e)
  {
    match e
    case Submit(task) =>
      var (p, ok) := PoolModel.Submit(s.pool, task);
      if ok then s.(pool := p, accepted := s.accepted + [task], notifies := s.notifies + 1) else s
    case SubmitNotify(pick) =>
      s.(pool := s.pool.(condition := s.pool.condition.NotifyOne(pick)), notifies := s.notifies - 1)
    case WorkerLock(w) =>
      var (p, proceeds) := AwaitWork(s.pool, w);
      if proceeds then s.(pool := p, mutex := Some(w), workers := s.workers[w := Deciding]) else s.(pool := p)
    case WorkerDecide(w) => Decided(s, w)
    case TaskDone(w) =>
      s.(workers := s.workers[w := Ran(s.workers[w].task)], finished := s.finished + {s.workers[w].task})
    case WorkerDecrement(w) => s.(pool := Finish(s.pool), workers := s.workers[w := Announcing])
    case WorkerAnnounce(w) =>
      s.(pool := s.pool.(completed := s.pool.completed.NotifyAll()), workers := s.workers[w := AtLock])
    case CallWaitAll(t) => s.(waiters := s.waiters + {t})
    case WaitAllSection(t) =>
      var (p, returns_) := WaitAll(s.pool, t);
      s.(pool := p, waiters := if returns_ then s.waiters - {t} else s.waiters)
    case SpuriousWake(t) =>
      s.(pool := s.pool.(condition := s.pool.condition.(waiting := s.pool.condition.waiting - {t}),
                         completed := s.pool.completed.(waiting := s.pool.completed.waiting - {t})))
    case BeginStart => Start(s)
    case StoreRunning => s.(pool := PoolModel.StoreRunning(s.pool), control := StartingOrIdle(s.numThreads))
    case Spawn(w) => s.(workers := s.workers[w := AtLock], control := StartingOrIdle(s.control.left - 1))
    case BeginStop(next) => s.(pool := Stop(s.pool), control := StopNotifying(next))
    case StopNotify =>
      s.(pool := s.pool.(condition := s.pool.condition.NotifyAll()),
         control := if s.control.next.StopOnly? then Idle else Joining(s.control.next))
    case Join => s.(workers := map[], control := Swapping(s.control.next))
    case Swap =>
      var (p, dropped) := SwapTasks(s.pool);
      var swapped := s.(pool := p, discarded := s.discarded + dropped);
      match s.control.next {
        case Resize(n) => Start(swapped.(numThreads := n))
        case _ => swapped.(control := Idle)
      }
  }

  function Run<T>(s: System<T>, es: seq<Event<T>>): Option<System<T>>
    decreases |es|
  {
    if es == [] then Some(s)
    else if !Enabled(s, es[0]) then None
    else Run(Step(s, es[0]), es[1..])
  }

  // ---- What every reachable state satisfies ----

  predicate IsBusy(worker: Worker) {
    worker.Running? || worker.Ran?
  }

  ghost function Busy(workers: map<Thread, Worker>): set<Thread> {
    set w <- workers | IsBusy(workers[w])
  }

  predicate IsStarting(c: Control) {
    c.StartStoring? || c.Spawning?
  }

  ghost predicate SomeoneAlive<T>(s: System<T>) {
    IsStarting(s.control) || exists w <- s.workers :: !s.workers[w].Exited?
  }

  ghost predicate Placed<T>(s: System<T>) {
    && s.pool.condition.Valid() && s.pool.completed.Valid()
    && (forall w <- s.pool.condition.waiting + s.pool.condition.signalled :: w in s.workers && s.workers[w].AtLock?)
    && s.pool.completed.waiting + s.pool.completed.signalled <= s.waiters
    && s.waiters !! s.workers.Keys
    && (forall w <- s.workers :: s.workers[w].Deciding? <==> s.mutex == Some(w))
    && (s.mutex.Some? ==> s.mutex.value in s.workers)
  }

  /** Accepted tasks are dispatched in order, each to one worker, and each is exactly one of
      pending, executing and finished; `active` counts the workers between taking a task and
      the decrement. */
  ghost predicate Accounted<T>(s: System<T>) {
    && s.started + |s.pool.tasks| == |s.accepted| && s.pool.tasks == s.accepted[s.started..]
    && (forall k <- s.finished :: k < s.started)
    && (forall w <- s.workers :: s.workers[w].Running? ==>
          s.workers[w].task < s.started && s.workers[w].task !in s.finished)
    && (forall v <- s.workers, w <- s.workers :: v != w && s.workers[v].Running? && s.workers[w].Running? ==>
          s.workers[v].task != s.workers[w].task)
    && (forall k: nat :: k < s.started && k !in s.finished ==>
          exists w <- s.workers :: s.workers[w] == Running(k))
    && s.pool.active == |Busy(s.workers)|
  }

  /** Every pending task has a worker on its way: while workers wait un-notified, each pending
      task is covered by a notified worker, a submitter about to notify, or the worker that
      holds the mutex; and nobody sleeps through a stop. */
  ghost predicate WorkersServed<T>(s: System<T>) {
    s.pool.condition.waiting != {} ==>
      && |s.pool.tasks| <= |s.pool.condition.signalled| + s.notifies + (if s.mutex.Some? then 1 else 0)
      && (s.pool.stopped ==> s.control.StopNotifying?)
  }

  /** A sleeping WaitAll has pending work, active work, or a worker about to notify it. */
  ghost predicate WaitersServed<T>(s: System<T>) {
    s.pool.completed.waiting != {} ==>
      || s.pool.tasks != [] || s.pool.active > 0
      || exists w <- s.workers :: s.workers[w].Announcing?
  }

  ghost predicate ControlSound<T>(s: System<T>) {
    && (s.control.StopNotifying? || s.control.Joining? || s.control.Swapping? ==> s.pool.stopped)
    && (IsStarting(s.control) ==> !s.pool.stopped)
    && (s.control.Swapping? ==> s.workers == map[])
    && (s.control.Spawning? ==> s.control.left > 0)
    && (s.pool.tasks != [] || !s.pool.stopped ==> SomeoneAlive(s))
  }

  /** The pool has, and will keep, at least one thread. */
  predicate Sized<T>(s: System<T>) {
    && s.numThreads > 0
    && (s.control.StopNotifying? || s.control.Joining? || s.control.Swapping? ==>
          NextSized(s.control.next))
  }

  predicate NextSized(next: Next) {
    next.Resize? ==> next.numThreads > 0
  }

  ghost predicate Inv<T>(s: System<T>) {
    Placed(s) && Accounted(s) && WorkersServed(s) && WaitersServed(s) && ControlSound(s) && s.discarded == []
  }

  predicate KeepsThreads<T>(e: Event<T>) {
    e.BeginStop? ==> NextSized(e.next)
  }

  lemma StepKeepsPlaced<T>(s: System<T>, e: Event<T>)
    requires Placed(s) && Enabled(s, e)
    ensures Placed(Step(s, e))
  {
    if IsWorkerStep(e) {
      WorkerKeepsPlaced(s, e);
    }
  }

  predicate IsWorkerStep<T>(e: Event<T>) {
    e.WorkerLock? || e.WorkerDecide? || e.TaskDone? || e.WorkerDecrement? || e.WorkerAnnounce?
  }

  lemma WorkerKeepsPlaced<T>(s: System<T>, e: Event<T>)
    requires IsWorkerStep(e) && Placed(s) && Enabled(s, e)
    ensures Placed(Step(s, e))
  {
  }

  /** Accounted looks at the queue, the counter, the logs and who is running what. */
  lemma AccountedFrame<T>(s: System<T>, r: System<T>, w: Thread)
    requires Accounted(s)
    requires r.pool.tasks == s.pool.tasks && r.pool.active == s.pool.active
    requires r.accepted == s.accepted && r.started == s.started && r.finished == s.finished
    requires r.workers.Keys == s.workers.Keys + {w}
    requires forall v <- s.workers :: v != w ==> r.workers[v] == s.workers[v]
    requires !IsBusy(r.workers[w]) && (w in s.workers ==> !IsBusy(s.workers[w]))
    ensures Accounted(r)
  {
    assert Busy(r.workers) == Busy(s.workers);
    forall k: nat | k < r.started && k !in r.finished
      ensures exists v <- r.workers :: r.workers[v] == Running(k)
    {
      var v :| v in s.workers && s.workers[v] == Running(k);
      assert r.workers[v] == Running(k);
    }
  }

  lemma OtherStepKeepsAccounted<T>(s: System<T>, e: Event<T>)
    requires !e.Submit? && !e.TaskDone? && !e.WorkerDecrement? && !e.WorkerDecide? && !e.Join?
    requires !e.WorkerLock? && !e.WorkerAnnounce? && !e.Spawn?
    requires Accounted(s) && Enabled(s, e) && (e.Swap? ==> s.pool.tasks == [])
    ensures Accounted(Step(s, e))
  {
  }

  lemma DispatchCounts<T>(s: System<T>, w: Thread)
    requires Placed(s) && Accounted(s) && Enabled(s, WorkerDecide(w)) && s.pool.tasks != []
    ensures Decided(s, w).pool.active == |Busy(Decided(s, w).workers)|
  {
    assert Busy(Decided(s, w).workers) == Busy(s.workers) + {w};
  }

  lemma DispatchRuns<T>(s: System<T>, w: Thread, k: nat)
    requires Placed(s) && Accounted(s) && Enabled(s, WorkerDecide(w)) && s.pool.tasks != []
    requires k <= s.started && k !in s.finished
    ensures exists v <- Decided(s, w).workers :: Decided(s, w).workers[v] == Running(k)
  {
    var r := Decided(s, w);
    if k == s.started {
      assert r.workers[w] == Running(k);
    } else {
      var v :| v in s.workers && s.workers[v] == Running(k);
      assert r.workers[v] == Running(k);
    }
  }

  lemma DispatchKeepsAccounted<T>(s: System<T>, w: Thread)
    requires Placed(s) && Accounted(s) && Enabled(s, WorkerDecide(w)) && s.pool.tasks != []
    ensures Accounted(Decided(s, w))
  {
    var r := Decided(s, w);
    DispatchCounts(s, w);
    forall k: nat | k < r.started && k !in r.finished
      ensures exists v <- r.workers :: r.workers[v] == Running(k)
    {
      DispatchRuns(s, w, k);
    }
  }

  lemma TaskDoneKeepsAccounted<T>(s: System<T>, w: Thread)
    requires Accounted(s) && Enabled(s, TaskDone(w))
    ensures Accounted(Step(s, TaskDone(w)))
  {
    var r := Step(s, TaskDone(w));
    assert Busy(r.workers) == Busy(s.workers);
    forall k: nat | k < r.started && k !in r.finished
      ensures exists v <- r.workers :: r.workers[v] == Running(k)
    {
      var v :| v in s.workers && s.workers[v] == Running(k);
      assert r.workers[v] == Running(k);
    }
  }

  lemma DecrementKeepsAccounted<T>(s: System<T>, w: Thread)
    requires Accounted(s) && Enabled(s, WorkerDecrement(w))
    ensures Accounted(Step(s, WorkerDecrement(w)))
  {
    var r := Step(s, WorkerDecrement(w));
    assert w in Busy(s.workers);
    assert Busy(r.workers) == Busy(s.workers) - {w};
    forall k: nat | k < r.started && k !in r.finished
      ensures exists v <- r.workers :: r.workers[v] == Running(k)
    {
      var v :| v in s.workers && s.workers[v] == Running(k);
      assert r.workers[v] == Running(k);
    }
  }

  lemma JoinKeepsAccounted<T>(s: System<T>)
    requires Accounted(s) && Enabled(s, Join)
    ensures Accounted(Step(s, Join))
  {
    assert Busy(s.workers) == {};
    assert Busy(Step(s, Join).workers) == {};
    assert forall k: nat :: k < s.started ==> k in s.finished;
  }

  lemma SubmitKeepsAccounted<T>(s: System<T>, task: T)
    requires Accounted(s) && s.mutex.None?
    ensures Accounted(Step(s, Submit(task)))
  {
  }

  lemma SwapFindsNothing<T>(s: System<T>)
    requires ControlSound(s) && s.control.Swapping?
    ensures s.pool.tasks == []
  {
  }

  lemma LockStepKeepsAccounted<T>(s: System<T>, e: Event<T>)
    requires e.WorkerLock? || e.WorkerAnnounce? || e.Spawn?
    requires Accounted(s) && Enabled(s, e)
    ensures Accounted(Step(s, e))
  {
    AccountedFrame(s, Step(s, e), e.w);
  }

  lemma DecideKeepsAccounted<T>(s: System<T>, w: Thread)
    requires Placed(s) && Accounted(s) && Enabled(s, WorkerDecide(w))
    ensures Accounted(Step(s, WorkerDecide(w)))
  {
    if s.pool.tasks != [] {
      DispatchKeepsAccounted(s, w);
    } else {
      AccountedFrame(s, Decided(s, w), w);
    }
  }

  lemma StepKeepsAccounted<T>(s: System<T>, e: Event<T>)
    requires Placed(s) && Accounted(s) && ControlSound(s) && Enabled(s, e)
    ensures Accounted(Step(s, e))
  {
    match e
    case Submit(task) => SubmitKeepsAccounted(s, task);
    case TaskDone(w) => TaskDoneKeepsAccounted(s, w);
    case WorkerDecrement(w) => DecrementKeepsAccounted(s, w);
    case Join => JoinKeepsAccounted(s);
    case WorkerDecide(w) => DecideKeepsAccounted(s, w);
    case _ =>
      if e.WorkerLock? || e.WorkerAnnounce? || e.Spawn? {
        LockStepKeepsAccounted(s, e);
      } else {
        OtherStepKeepsAccounted(s, e);
      }
  }

  lemma StepKeepsWorkersServed<T>(s: System<T>, e: Event<T>)
    requires Placed(s) && WorkersServed(s) && ControlSound(s) && Enabled(s, e)
    ensures WorkersServed(Step(s, e))
  {
    if IsWorkerStep(e) {
      WorkerKeepsWorkersServed(s, e);
    }
  }

  lemma WorkerKeepsWorkersServed<T>(s: System<T>, e: Event<T>)
    requires IsWorkerStep(e) && Placed(s) && WorkersServed(s) && ControlSound(s) && Enabled(s, e)
    ensures WorkersServed(Step(s, e))
  {
  }

  lemma StepKeepsWaitersServed<T>(s: System<T>, e: Event<T>)
    requires Placed(s) && WaitersServed(s) && ControlSound(s) && Enabled(s, e)
    ensures WaitersServed(Step(s, e))
  {
    var r := Step(s, e);
    if e.Swap? {
      SwapFindsNothing(s);
    }
    if e.WorkerDecrement? {
      assert r.workers[e.w].Announcing?;
    } else if v :| v in s.workers && s.workers[v].Announcing? && e != WorkerAnnounce(v) && !e.Join? {
      assert v in r.workers && r.workers[v].Announcing?;
    }
  }

  lemma StaysAlive<T>(s: System<T>, e: Event<T>)
    requires Placed(s) && ControlSound(s) && Sized(s) && Enabled(s, e) && !e.Join? && !e.BeginStart? && !e.Swap?
    requires SomeoneAlive(s)
    ensures SomeoneAlive(Step(s, e)) || (e.WorkerDecide? && s.pool.stopped && s.pool.tasks == [])
  {
    var r := Step(s, e);
    if e.Spawn? {
      assert !r.workers[e.w].Exited?;
    } else if !IsStarting(s.control) {
      var v :| v in s.workers && !s.workers[v].Exited?;
      assert v in r.workers;
    }
  }

  lemma StepKeepsControl<T>(s: System<T>, e: Event<T>)
    requires Placed(s) && ControlSound(s) && s.discarded == [] && Sized(s) && Enabled(s, e)
    ensures ControlSound(Step(s, e)) && Step(s, e).discarded == []
    ensures KeepsThreads(e) ==> Sized(Step(s, e))
  {
    if e.Swap? {
      SwapFindsNothing(s);
    } else if !e.Join? && !e.BeginStart? && SomeoneAlive(s) {
      StaysAlive(s, e);
    }
  }

  // ---- Whole runs ----

  predicate AllKeepThreads<T>(es: seq<Event<T>>) {
    forall i :: 0 <= i < |es| ==> KeepsThreads(es[i])
  }

  /** Safety over every run of a pool that always has at least one thread. */
  lemma {:induction false} RunKeepsInv<T>(s: System<T>, es: seq<Event<T>>)
    requires Inv(s) && Sized(s) && Run(s, es).Some? && AllKeepThreads(es)
    ensures Inv(Run(s, es).value) && Sized(Run(s, es).value)
    decreases |es|
  {
    if es != [] {
      var next := Step(s, es[0]);
      assert KeepsThreads(es[0]) && AllKeepThreads(es[1..]);
      assert Inv(next) && Sized(next) by {
        StepKeepsPlaced(s, es[0]);
        StepKeepsAccounted(s, es[0]);
        StepKeepsWorkersServed(s, es[0]);
        StepKeepsWaitersServed(s, es[0]);
        StepKeepsControl(s, es[0]);
      }
      RunKeepsInv(next, es[1..]);
    }
  }

  ghost predicate Reachable<T(!new)>(s: System<T>) {
    exists n: nat, es :: n > 0 && AllKeepThreads(es) && Run(Initial<T>(n), es) == Some(s)
  }

  lemma ReachableIsInv<T(!new)>(s: System<T>)
    requires Reachable(s)
    ensures Inv(s) && Sized(s)
  {
    var n: nat, es :| n > 0 && AllKeepThreads(es) && Run(Initial<T>(n), es) == Some(s);
    RunKeepsInv(Initial<T>(n), es);
  }

  /** Every accepted task is exactly one of finished, executing on exactly one worker, and
      pending in submission order; StopAndWait has thrown none away. */
  lemma EachTaskOnce<T(!new)>(s: System<T>, k: nat)
    requires Reachable(s) && k < |s.accepted|
    ensures s.discarded == []
    ensures k >= s.started <==> k !in s.finished && forall w <- s.workers :: s.workers[w] != Running(k)
    ensures k >= s.started ==> k - s.started < |s.pool.tasks| && s.pool.tasks[k - s.started] == s.accepted[k]
    ensures k in s.finished ==> forall w <- s.workers :: s.workers[w] != Running(k)
    ensures forall v <- s.workers, w <- s.workers ::
      s.workers[v] == Running(k) && s.workers[w] == Running(k) ==> v == w
  {
    ReachableIsInv(s);
  }

  /** At the swap of StopAndWait every worker has exited, so nothing can be pending. */
  lemma NothingLeftToSwap<T(!new)>(s: System<T>)
    requires Reachable(s) && s.control.Swapping?
    ensures s.pool.tasks == [] && s.workers == map[]
  {
    ReachableIsInv(s);
  }

  /** A WaitAll that returns although the pool is not stopped saw every accepted task finished. */
  lemma WaitAllMeansFinished<T(!new)>(s: System<T>, t: Thread)
    requires Reachable(s) && Enabled(s, WaitAllSection(t)) && !s.pool.stopped
    requires t !in Step(s, WaitAllSection(t)).waiters
    ensures forall k: nat :: k < |s.accepted| ==> k in s.finished
  {
    ReachableIsInv(s);
    assert Busy(s.workers) == {};
    assert forall w <- s.workers :: IsBusy(s.workers[w]) ==> w in Busy(s.workers);
  }

  /** WaitAll returns exactly if the pool is stopped, or every accepted task is finished and no
      worker is between its task and the decrement; otherwise it sleeps. */
  lemma WaitAllReturnsIff<T(!new)>(s: System<T>, t: Thread)
    requires Reachable(s) && Enabled(s, WaitAllSection(t))
    ensures var r := Step(s, WaitAllSection(t));
      && (t in r.waiters <==> t in r.pool.completed.waiting)
      && (t !in r.waiters <==>
            s.pool.stopped || ((forall k: nat :: k < |s.accepted| ==> k in s.finished) &&
                               (forall w <- s.workers :: !s.workers[w].Ran?)))
  {
    ReachableIsInv(s);
    if !s.pool.stopped {
      if s.pool.tasks == [] && s.pool.active == 0 {
        WaitAllMeansFinished(s, t);
        assert forall w <- s.workers :: IsBusy(s.workers[w]) ==> w in Busy(s.workers);
      } else if s.pool.tasks != [] {
        assert s.started < |s.accepted| && s.started !in s.finished;
      } else {
        var w :| w in Busy(s.workers);
        assert s.workers[w].Running? ==> s.workers[w].task < |s.accepted| && s.workers[w].task !in s.finished;
      }
    }
  }

  /** The steps of a worker that holds the mutex or is on its way from a task to the
      announcement behind it. */
  ghost predicate SomeTaskStepEnabled<T>(s: System<T>) {
    || (exists w :: Enabled(s, WorkerDecide(w)))
    || (exists w :: Enabled(s, TaskDone(w)))
    || (exists w :: Enabled(s, WorkerDecrement(w)))
    || (exists w :: Enabled(s, WorkerAnnounce(w)))
  }

  /** The steps that bring a pool with pending tasks closer to finishing them. */
  ghost predicate SomeWorkStepEnabled<T>(s: System<T>) {
    || SomeTaskStepEnabled(s)
    || (exists w :: Enabled(s, WorkerLock(w)))
    || (exists pick :: Enabled(s, SubmitNotify(pick)))
    || Enabled(s, StopNotify) || Enabled(s, StoreRunning) || (exists w :: Enabled(s, Spawn(w)))
  }

  lemma ThreadAbove(used: set<Thread>) returns (w: Thread)
    ensures forall u <- used :: u < w
    decreases |used|
  {
    if used == {} {
      w := 0;
    } else {
      var m :| m in used;
      var above := ThreadAbove(used - {m});
      w := if m < above then above else m + 1;
      forall u <- used ensures u < w {
        assert u == m || u in used - {m};
      }
    }
  }

  /** Pending tasks are never stranded: some worker, submitter or controller step can run. */
  lemma PendingWorkCanMove<T(!new)>(s: System<T>)
    requires Reachable(s) && s.pool.tasks != []
    ensures SomeWorkStepEnabled(s)
  {
    ReachableIsInv(s);
    if s.mutex.Some? {
      assert Enabled(s, WorkerDecide(s.mutex.value));
    } else if s.control.StartStoring? {
      assert Enabled(s, StoreRunning);
    } else if s.control.Spawning? {
      var w := ThreadAbove(s.workers.Keys + s.waiters);
      assert Enabled(s, Spawn(w));
    } else {
      var w :| w in s.workers && !s.workers[w].Exited?;
      WorkerCanMove(s, w);
    }
  }

  lemma WorkerCanMove<T>(s: System<T>, w: Thread)
    requires Inv(s) && s.mutex.None? && w in s.workers && !s.workers[w].Exited?
    requires s.pool.tasks != []
    ensures SomeWorkStepEnabled(s)
  {
    match s.workers[w]
    case Running(_) => assert Enabled(s, TaskDone(w));
    case Ran(_) => assert Enabled(s, WorkerDecrement(w));
    case Announcing => assert Enabled(s, WorkerAnnounce(w));
    case AtLock =>
      if w !in s.pool.condition.waiting {
        assert Enabled(s, WorkerLock(w));
      } else if v :| v in s.pool.condition.signalled {
        assert Enabled(s, WorkerLock(v));
      } else {
        assert Enabled(s, SubmitNotify(w));
      }
    case _ =>
  }

  /** A sleeping WaitAll is never forgotten: work is pending or executing, or a worker is about
      to notify it, and in each case some step towards that can run; with nothing pending it is a
      step of a worker that is not idle. */
  lemma SleepingWaitAllIsServed<T(!new)>(s: System<T>)
    requires Reachable(s) && s.pool.completed.waiting != {}
    ensures s.pool.tasks != [] || s.pool.active > 0 || exists w <- s.workers :: s.workers[w].Announcing?
    ensures if s.pool.tasks != [] then SomeWorkStepEnabled(s) else SomeTaskStepEnabled(s)
  {
    ReachableIsInv(s);
    if s.pool.tasks != [] {
      PendingWorkCanMove(s);
    } else if s.mutex.Some? {
      assert Enabled(s, WorkerDecide(s.mutex.value));
    } else if s.pool.active > 0 {
      var w :| w in Busy(s.workers);
      assert Enabled(s, TaskDone(w)) || Enabled(s, WorkerDecrement(w));
    } else {
      var w :| w in s.workers && s.workers[w].Announcing?;
      assert Enabled(s, WorkerAnnounce(w));
    }
  }

  lemma RunOne<T>(s: System<T>, e: Event<T>, es: seq<Event<T>>)
    requires Enabled(s, e)
    ensures Run(s, [e] + es) == Run(Step(s, e), es)
  {
    assert ([e] + es)[1..] == es;
  }

  /** With no worker, StopAndWait throws away everything pending. */
  lemma StopAndWaitDiscards<T>(s: System<T>) returns (es: seq<Event<T>>)
    requires s.control.Idle? && s.mutex.None? && s.workers == map[]
    ensures (forall i :: 0 <= i < |es| ==> es[i].BeginStop? ==> es[i].next.Return?) && Run(s, es).Some?
    ensures Run(s, es).value.discarded == s.discarded + s.pool.tasks
  {
    var s1 := Step(s, BeginStop(Return));
    var s2 := Step(s1, StopNotify);
    var s3 := Step(s2, Join);
    RunOne(s3, Swap, []);
    RunOne(s2, Join, [Swap]);
    RunOne(s1, StopNotify, [Join] + [Swap]);
    RunOne(s, BeginStop(Return), [StopNotify] + ([Join] + [Swap]));
    es := [BeginStop(Return)] + ([StopNotify] + ([Join] + [Swap]));
  }

  /** SetNumThreads is only ever given sizes out of `sizes`. */
  predicate SizesIn<T>(es: seq<Event<T>>, sizes: iset<nat>) {
    forall i :: 0 <= i < |es| ==> es[i].BeginStop? && es[i].next.Resize? ==> es[i].next.numThreads in sizes
  }

  function ThreadlessStart(): System<int> {
    Step(Initial<int>(0), BeginStart)
  }

  /** A pool started without threads accepts a task and StopAndWait throws it away. */
  lemma ThreadlessStartDiscards() returns (es: seq<Event<int>>)
    ensures SizesIn(es, iset{}) && Run(ThreadlessStart(), es).Some? && Run(ThreadlessStart(), es).value.discarded == [7]
  {
    var s := ThreadlessStart();
    var s1 := Step(s, StoreRunning);
    var stopping := StopAndWaitDiscards(Step(s1, Submit(7)));
    RunOne(s1, Submit(7), stopping);
    RunOne(s, StoreRunning, [Submit(7)] + stopping);
    es := [StoreRunning] + ([Submit(7)] + stopping);
  }

  lemma EmptyPoolDiscards() returns (es: seq<Event<int>>)
    ensures SizesIn(es, iset{}) && Run(Initial(0), es).Some? && Run(Initial(0), es).value.discarded == [7]
  {
    var rest := ThreadlessStartDiscards();
    RunOne(Initial(0), BeginStart, rest);
    es := [BeginStart] + rest;
  }

  /** SetNumThreads(0) leaves a new pool like one that is made with no threads and started. */
  lemma ResizeToNone(n: nat, rest: seq<Event<int>>)
    ensures Run(Initial(n), [BeginStop(Resize(0))] + ([StopNotify] + ([Join] + ([Swap] + rest)))) ==
      Run(ThreadlessStart(), rest)
  {
    var s0 := Initial<int>(n);
    var s1 := Step(s0, BeginStop(Resize(0)));
    var s2 := Step(s1, StopNotify);
    var s3 := Step(s2, Join);
    assert s3.pool.condition == NOBODY && s3.discarded + [] == [];
    assert Step(s3, Swap) == ThreadlessStart();
    RunOne(s3, Swap, rest);
    RunOne(s2, Join, [Swap] + rest);
    RunOne(s1, StopNotify, [Join] + ([Swap] + rest));
    RunOne(s0, BeginStop(Resize(0)), [StopNotify] + ([Join] + ([Swap] + rest)));
  }

  /** A pool of any size, told to have no threads, accepts a task and StopAndWait throws it away. */
  lemma ResizedPoolDiscards(n: nat) returns (es: seq<Event<int>>)
    ensures SizesIn(es, iset{0}) && Run(Initial(n), es).Some? && Run(Initial(n), es).value.discarded == [7]
  {
    var rest := ThreadlessStartDiscards();
    ResizeToNone(n, rest);
    es := [BeginStop(Resize(0))] + ([StopNotify] + ([Join] + ([Swap] + rest)));
  }

  /** Accepted tasks survive every run exactly when the pool is made with a thread and
      SetNumThreads is never given 0. */
  lemma DiscardsNothingIff(n: nat, sizes: iset<nat>)
    ensures (forall es: seq<Event<int>> :: SizesIn(es, sizes) && Run(Initial(n), es).Some? ==>
               Run(Initial(n), es).value.discarded == []) <==> n > 0 && 0 !in sizes
  {
    if n == 0 {
      var es := EmptyPoolDiscards();
      assert SizesIn(es, sizes);
    } else if 0 in sizes {
      var es := ResizedPoolDiscards(n);
      assert SizesIn(es, sizes);
    } else {
      forall es: seq<Event<int>> | SizesIn(es, sizes) && Run(Initial(n), es).Some?
        ensures Run(Initial(n), es).value.discarded == []
      {
        RunKeepsInv(Initial(n), es);
      }
    }
  }

  // ---- Stopping and starting again ----

  ghost predicate NoStops<T>(es: seq<Event<T>>) {
    forall e <- es :: !e.BeginStop?
  }

  /** Start is called, by itself or at the end of SetNumThreads. */
  predicate Starts<T>(s: System<T>, e: Event<T>)
    requires Enabled(s, e)
  {
    e.BeginStart? || (e.Swap? && s.control.next.Resize?)
  }

  /** The pool is open after a run exactly if a start came after the last stop; a new one is not. */
  function OpenAfter<T>(s: System<T>, es: seq<Event<T>>, open: bool): bool
    requires Run(s, es).Some?
    decreases |es|
  {
    if es == [] then open
    else
      OpenAfter(Step(s, es[0]), es[1..], if es[0].BeginStop? then false else open || Starts(s, es[0]))
  }

  predicate IsStopping(c: Control) {
    c.StopNotifying? || c.Joining? || c.Swapping?
  }

  /** The two flags only differ while the pool is being started. */
  predicate FlagsAgree<T>(s: System<T>) {
    && (s.pool.running ==> !s.pool.stopped)
    && (IsStopping(s.control) ==> s.pool.stopped)
    && (s.control.StartStoring? ==> !s.pool.stopped && !s.pool.running)
    && (s.control.Spawning? || s.control.Idle? ==> s.pool.running == !s.pool.stopped)
  }

  lemma StepKeepsFlags<T>(s: System<T>, e: Event<T>)
    requires FlagsAgree(s) && Enabled(s, e)
    ensures FlagsAgree(Step(s, e))
    ensures Step(s, e).pool.stopped == (if e.BeginStop? then true else s.pool.stopped && !Starts(s, e))
  {
  }

  lemma {:induction false} HistoryIsFlag<T>(s: System<T>, es: seq<Event<T>>)
    requires FlagsAgree(s) && Run(s, es).Some?
    ensures FlagsAgree(Run(s, es).value)
    ensures Run(s, es).value.pool.stopped == !OpenAfter(s, es, !s.pool.stopped)
    decreases |es|
  {
    if es != [] {
      StepKeepsFlags(s, es[0]);
      HistoryIsFlag(Step(s, es[0]), es[1..]);
    }
  }

  /** In every run of every pool a task is accepted exactly if a start came after the last stop. */
  lemma SubmitAcceptedIff<T>(n: nat, es: seq<Event<T>>, task: T)
    requires var start := Initial<T>(n); Run(start, es).Some? && Enabled(Run(start, es).value, Submit(task))
    ensures var start := Initial<T>(n);
      var s := Run(start, es).value;
      var r := Step(s, Submit(task));
      if OpenAfter(start, es, false)
      then r.accepted == s.accepted + [task] && r.pool.tasks == s.pool.tasks + [task] && r.notifies == s.notifies + 1
      else r == s
  {
    HistoryIsFlag(Initial<T>(n), es);
  }

  /** Start on a pool that was started and has not been stopped since changes nothing. */
  lemma StartAgainChangesNothing<T>(n: nat, es: seq<Event<T>>)
    requires var start := Initial<T>(n);
      Run(start, es).Some? && Run(start, es).value.control.Idle? && OpenAfter(start, es, false)
    ensures var s := Run(Initial<T>(n), es).value; Step(s, BeginStart) == s
  {
    HistoryIsFlag(Initial<T>(n), es);
  }

  /** Started with `n` threads and not stopped since: so far as created, they are all there. */
  ghost predicate Fresh<T>(s: System<T>, n: nat) {
    && s.numThreads == n && !s.pool.stopped && (forall w <- s.workers :: !s.workers[w].Exited?)
    && match s.control
       case StartStoring => s.workers == map[] && !s.pool.running
       case Spawning(left) => |s.workers| + left == n && s.pool.running
       case Idle => |s.workers| == n && s.pool.running
       case _ => false
  }

  /** In StopAndWait or SetNumThreads(n), or behind them. */
  ghost predicate Restarting<T>(s: System<T>, next: Next, n: nat) {
    || Fresh(s, n)
    || (IsStopping(s.control) && s.control.next == next && s.pool.stopped && !s.pool.running
        && (s.control.Swapping? ==> s.workers == map[])
        && (if next.Resize? then next.numThreads == n else next.Return? && s.numThreads == n))
    || (next.Return? && s.control.Idle? && s.workers == map[] && s.pool.stopped && !s.pool.running
        && s.numThreads == n)
  }

  lemma FreshStays<T>(s: System<T>, e: Event<T>, n: nat)
    requires Fresh(s, n) && Enabled(s, e) && !e.BeginStop?
    ensures Fresh(Step(s, e), n)
  {
    if IsWorkerStep(e) {
      WorkerKeepsFresh(s, e, n);
    }
  }

  lemma WorkerKeepsFresh<T>(s: System<T>, e: Event<T>, n: nat)
    requires Fresh(s, n) && Enabled(s, e) && IsWorkerStep(e)
    ensures Fresh(Step(s, e), n)
  {
    var r := Step(s, e);
    assert r.workers.Keys == s.workers.Keys;
    assert |r.workers| == |r.workers.Keys| == |s.workers|;
  }

  lemma RestartingStays<T>(s: System<T>, e: Event<T>, next: Next, n: nat)
    requires Restarting(s, next, n) && Enabled(s, e) && !e.BeginStop?
    ensures Restarting(Step(s, e), next, n)
    ensures Fresh(s, n) || e.BeginStart? ==> Fresh(Step(s, e), n)
  {
    if Fresh(s, n) {
      FreshStays(s, e, n);
    }
  }

  lemma {:induction false} RunKeepsRestarting<T>(s: System<T>, es: seq<Event<T>>, next: Next, n: nat)
    requires Restarting(s, next, n) && Run(s, es).Some? && NoStops(es)
    ensures Restarting(Run(s, es).value, next, n)
    ensures Fresh(s, n) || BeginStart in es ==> Fresh(Run(s, es).value, n)
    decreases |es|
  {
    if es != [] {
      assert es[0] in es && es == [es[0]] + es[1..];
      RestartingStays(s, es[0], next, n);
      RunKeepsRestarting(Step(s, es[0]), es[1..], next, n);
    }
  }

  /** Whatever happens meanwhile: once the controlling thread is through with SetNumThreads(n), or
      with StopAndWait and a Start behind it, the pool runs with exactly its number of threads,
      none of which has exited, and accepts tasks. */
  lemma RestartServes<T>(s: System<T>, next: Next, es: seq<Event<T>>, task: T)
    requires Enabled(s, BeginStop(next)) && !next.StopOnly?
    requires var s1 := Step(s, BeginStop(next)); Run(s1, es).Some? && Run(s1, es).value.control.Idle?
    requires NoStops(es) && (next.Return? ==> BeginStart in es)
    ensures var r := Run(Step(s, BeginStop(next)), es).value;
      && r.pool.running && |r.workers| == r.numThreads && (forall w <- r.workers :: !r.workers[w].Exited?)
      && r.numThreads == (if next.Resize? then next.numThreads else s.numThreads)
      && (r.mutex.None? ==> Step(r, Submit(task)).accepted == r.accepted + [task])
  {
    var n := if next.Resize? then next.numThreads else s.numThreads;
    RunKeepsRestarting(Step(s, BeginStop(next)), es, next, n);
  }

  /** With threads or without: every task accepted has been taken by a worker, or thrown away, or is
      pending, and is counted once. */
  ghost predicate CountedOnce<T>(s: System<T>) {
    |s.accepted| == s.started + |s.discarded| + |s.pool.tasks|
  }

  lemma EachCountedOnce<T>(n: nat, es: seq<Event<T>>)
    requires Run(Initial<T>(n), es).Some?
    ensures CountedOnce(Run(Initial<T>(n), es).value)
  {
    RunCountsOnce(Initial<T>(n), es);
  }

  lemma {:induction false} RunCountsOnce<T>(s: System<T>, es: seq<Event<T>>)
    requires CountedOnce(s) && Run(s, es).Some?
    ensures CountedOnce(Run(s, es).value)
    decreases |es|
  {
    if es != [] {
      StepCountsOnce(s, es[0]);
      RunCountsOnce(Step(s, es[0]), es[1..]);
    }
  }

  lemma StepCountsOnce<T>(s: System<T>, e: Event<T>)
    requires CountedOnce(s) && Enabled(s, e)
    ensures CountedOnce(Step(s, e))
  {
  }

  // ---- Stopping ends ----

  /** How far a worker is from its exit, tasks aside. */
  function Weight(w: Worker): nat {
    match w
    case Running(_) => 8
    case Ran(_) => 7
    case Announcing => 6
    case AtLock => 2
    case Deciding => 1
    case Exited => 0
  }

  ghost function Weights(workers: map<Thread, Worker>): nat
    decreases |workers|
  {
    if workers == map[] then 0
    else
      var w :| w in workers;
      Weight(workers[w]) + Weights(workers - {w})
  }

  lemma {:induction false} WeightsWithout(workers: map<Thread, Worker>, w: Thread)
    requires w in workers
    ensures Weights(workers) == Weight(workers[w]) + Weights(workers - {w})
    decreases |workers|
  {
    var v :| v in workers && Weights(workers) == Weight(workers[v]) + Weights(workers - {v});
    if v != w {
      WeightsWithout(workers - {v}, w);
      WeightsWithout(workers - {w}, v);
      assert workers - {v} - {w} == workers - {w} - {v};
    }
  }

  lemma WeightsUpdate(workers: map<Thread, Worker>, w: Thread, x: Worker)
    requires w in workers
    ensures Weights(workers[w := x]) + Weight(workers[w]) == Weights(workers) + Weight(x)
  {
    WeightsWithout(workers, w);
    WeightsWithout(workers[w := x], w);
    assert workers[w := x] - {w} == workers - {w};
  }

  ghost function Distance<T>(s: System<T>): nat {
    10 * |s.pool.tasks| + Weights(s.workers)
  }

  ghost predicate AwaitsExits<T>(s: System<T>) {
    && Placed(s) && s.control.Joining? && s.pool.stopped && s.pool.condition.waiting == {}
  }

  /** While StopAndWait joins the workers, one that has not exited can come closer to it. */
  lemma SomeWorkerProceeds<T>(s: System<T>, w: Thread) returns (e: Event<T>)
    requires AwaitsExits(s) && w in s.workers && !s.workers[w].Exited?
    ensures IsWorkerStep(e) && Enabled(s, e) && Distance(Step(s, e)) < Distance(s)
    ensures AwaitsExits(Step(s, e)) && Step(s, e).control == s.control
  {
    var v := if s.mutex.Some? then s.mutex.value else w;
    var state := s.workers[v];
    e := if state.Deciding? then WorkerDecide(v)
         else if state.Running? then TaskDone(v)
         else if state.Ran? then WorkerDecrement(v)
         else if state.Announcing? then WorkerAnnounce(v)
         else WorkerLock(v);
    StepKeepsPlaced(s, e);
    WeightsUpdate(s.workers, v, Step(s, e).workers[v]);
  }

  lemma {:induction false} AllExit<T>(s: System<T>) returns (es: seq<Event<T>>)
    requires AwaitsExits(s)
    ensures (forall e <- es :: IsWorkerStep(e)) && Run(s, es).Some?
    ensures var r := Run(s, es).value; AwaitsExits(r) && r.control == s.control && Enabled(r, Join)
    decreases Distance(s)
  {
    if w :| w in s.workers && !s.workers[w].Exited? {
      var e := SomeWorkerProceeds(s, w);
      var rest := AllExit(Step(s, e));
      RunOne(s, e, rest);
      es := [e] + rest;
    } else {
      es := [];
    }
  }

  lemma {:induction false} RunAppend<T>(s: System<T>, es: seq<Event<T>>, more: seq<Event<T>>)
    requires Run(s, es).Some?
    ensures Run(s, es + more) == Run(Run(s, es).value, more)
    decreases |es|
  {
    if es == [] {
      assert es + more == more;
    } else {
      assert (es + more)[1..] == es[1..] + more;
      RunAppend(Step(s, es[0]), es[1..], more);
    }
  }

  /** Some run without another stop leads from `s` to `r`. */
  ghost predicate Leads<T(!new)>(s: System<T>, r: System<T>) {
    exists es :: NoStops(es) && Run(s, es) == Some(r)
  }

  lemma LeadsOn<T(!new)>(s: System<T>, r: System<T>, e: Event<T>)
    requires Leads(s, r) && Enabled(r, e) && !e.BeginStop?
    ensures Leads(s, Step(r, e))
  {
    var es :| NoStops(es) && Run(s, es) == Some(r);
    RunAppend(s, es, [e]);
    RunOne(r, e, []);
    assert [e] + [] == [e];
  }

  lemma {:induction false} StepsKeepPlaced<T>(s: System<T>, es: seq<Event<T>>)
    requires Placed(s) && Run(s, es).Some?
    ensures Placed(Run(s, es).value)
    decreases |es|
  {
    if es != [] {
      StepKeepsPlaced(s, es[0]);
      StepsKeepPlaced(Step(s, es[0]), es[1..]);
    }
  }

  /** The threads are created one after the other. */
  lemma {:induction false} AllSpawn<T(!new)>(start: System<T>, s: System<T>, n: nat) returns (r: System<T>)
    requires Leads(start, s) && Fresh(s, n) && (s.control.Spawning? || s.control.Idle?)
    requires s.control.Spawning? ==> s.control.left > 0
    ensures Leads(start, r) && Fresh(r, n) && r.control.Idle?
    decreases if s.control.Spawning? then s.control.left else 0
  {
    r := s;
    if s.control.Spawning? {
      var w := ThreadAbove(s.workers.Keys + s.waiters);
      LeadsOn(start, s, Spawn(w));
      FreshStays(s, Spawn(w), n);
      r := AllSpawn(start, Step(s, Spawn(w)), n);
    }
  }

  lemma StopLeads<T(!new)>(s: System<T>, next: Next, n: nat) returns (r: System<T>)
    requires Placed(s) && Enabled(s, BeginStop(next)) && !next.StopOnly?
    requires n == if next.Resize? then next.numThreads else s.numThreads
    ensures Leads(Step(s, BeginStop(next)), r) && Restarting(r, next, n) && AwaitsExits(r) && r.control.next == next
  {
    var s1 := Step(s, BeginStop(next));
    assert Run(s1, []) == Some(s1);
    assert NoStops<T>([]);
    LeadsOn(s1, s1, StopNotify);
    StepKeepsPlaced(s, BeginStop(next));
    StepKeepsPlaced(s1, StopNotify);
    RestartingStays(s1, StopNotify, next, n);
    r := Step(s1, StopNotify);
  }

  lemma SwapLeads<T(!new)>(start: System<T>, s: System<T>, next: Next, n: nat) returns (r: System<T>)
    requires Leads(start, s) && s.control.Joining? && Enabled(s, Join) && Restarting(s, next, n)
    ensures Leads(start, r) && Restarting(r, next, n) && !r.pool.running
    ensures if next.Resize? then r.control.StartStoring? else r.control.Idle?
  {
    RestartingStays(s, Join, next, n);
    LeadsOn(start, s, Join);
    r := Step(s, Join);
    RestartingStays(r, Swap, next, n);
    LeadsOn(start, r, Swap);
    r := Step(r, Swap);
  }

  lemma ExitsLead<T(!new)>(start: System<T>, s: System<T>, next: Next, n: nat) returns (r: System<T>)
    requires Leads(start, s) && AwaitsExits(s) && Restarting(s, next, n)
    ensures Leads(start, r) && Restarting(r, next, n) && r.control.Joining? && Enabled(r, Join)
  {
    var before :| NoStops(before) && Run(start, before) == Some(s);
    var es := AllExit(s);
    assert NoStops(es) by {
      forall e | e in es ensures !e.BeginStop? {
        assert IsWorkerStep(e);
      }
    }
    RunAppend(start, before, es);
    RunKeepsRestarting(s, es, next, n);
    r := Run(s, es).value;
    assert Run(start, before + es) == Some(r);
  }

  /** StopAndWait and SetNumThreads can always come to their end: from the stop of any pool in any
      state of any run some run drains the tasks, joins all workers and, for SetNumThreads(n) or
      with a Start behind StopAndWait, ends with the pool started. */
  lemma CanRestart<T(!new)>(m: nat, es: seq<Event<T>>, next: Next) returns (r: System<T>)
    requires var start := Initial<T>(m); Run(start, es).Some? && Enabled(Run(start, es).value, BeginStop(next))
    requires !next.StopOnly?
    ensures var s := Run(Initial<T>(m), es).value;
      && Leads(Step(s, BeginStop(next)), r)
      && Fresh(r, if next.Resize? then next.numThreads else s.numThreads) && r.control.Idle?
  {
    var s := Run(Initial<T>(m), es).value;
    var s1 := Step(s, BeginStop(next));
    var n := if next.Resize? then next.numThreads else s.numThreads;
    StepsKeepPlaced(Initial<T>(m), es);
    r := StopLeads(s, next, n);
    r := ExitsLead(s1, r, next, n);
    r := SwapLeads(s1, r, next, n);
    if next.Return? {
      LeadsOn(s1, r, BeginStart);
      RestartingStays(r, BeginStart, next, n);
      r := Step(r, BeginStart);
    }
    LeadsOn(s1, r, StoreRunning);
    FreshStays(r, StoreRunning, n);
    r := AllSpawn(s1, Step(r, StoreRunning), n);
  }
}
