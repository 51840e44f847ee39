/** The fixed thread pool (thread_pool/thread_pool.h): workers, callers of `execute` and the
    destructor as threads over one mutex, one condition variable and a task queue. Every step
    between two accesses of the mutex is a step of its own, so runs are all interleavings. */
module ThreadPool {
  import opened Wrappers
  import opened Counting

  /** A worker: asleep in `wait`, about to take the lock (also after being woken), holding it at the
      top of its loop, running a task, or gone. */
  datatype Worker = Asleep | Wanting | Checking | Running(task: nat) | Exited

  /** A thread that calls `execute`: it takes the lock, pushes, releases it and notifies. */
  datatype Caller = Idle | Locking(task: nat) | Holding | Notifying

  datatype Destructor = Alive | WantsLock | Sets | NotifiesAll | Finished

  datatype Holder = Nobody | TheWorker(worker: nat) | TheCaller(caller: nat) | TheDestructor

  datatype Pool = Pool(
    workers: seq<Worker>,
    callers: seq<Caller>,
    destructor: Destructor,
    holder: Holder,
    tasks: seq<nat>,
    isShutdown: bool,
    submitted: seq<nat>,
    started: seq<nat>
  )

  datatype Action =
    | Acquire(w: nat)
    | Take(w: nat)
    | Exit(w: nat)
    | Sleep(w: nat)
    | Finish(w: nat)
    | WakeSpuriously(w: nat)
    | Call(c: nat, task: nat)
    | Push(c: nat)
    | Unlock(c: nat)
    | NotifyOne(c: nat, woken: Option<nat>)
    | Destroy
    | SetShutdown
    | UnlockShutdown
    | NotifyAll

  predicate IsWorker(s: Pool, w: nat, phase: Worker) {
    w < |s.workers| && s.workers[w] == phase
  }

  predicate SomeAsleep(s: Pool) {
    exists w :: 0 <= w < |s.workers| && s.workers[w] == Asleep
  }

  /** When a step can be taken. `Destroy` needs all calls of `execute` to be over: calling a member
      of an object under destruction is the caller's mistake. */
  predicate Enabled(s: Pool, a: Action) {
    match a
    case Acquire(w) => IsWorker(s, w, Wanting) && s.holder == Nobody
    case Take(w) => IsWorker(s, w, Checking) && s.tasks != []
    case Exit(w) => IsWorker(s, w, Checking) && s.tasks == [] && s.isShutdown
    case Sleep(w) => IsWorker(s, w, Checking) && s.tasks == [] && !s.isShutdown
    case Finish(w) => w < |s.workers| && s.workers[w].Running?
    case WakeSpuriously(w) => IsWorker(s, w, Asleep)
    case Call(c, _) => c < |s.callers| && s.callers[c] == Idle && s.destructor == Alive
    case Push(c) => c < |s.callers| && s.callers[c].Locking? && s.holder == Nobody
    case Unlock(c) => c < |s.callers| && s.callers[c] == Holding
    case NotifyOne(c, woken) =>
      && c < |s.callers| && s.callers[c] == Notifying
      && if SomeAsleep(s) then woken.Some? && IsWorker(s, woken.value, Asleep) else woken == None
    case Destroy => s.destructor == Alive && forall c :: 0 <= c < |s.callers| ==> s.callers[c] == Idle
    case SetShutdown => s.destructor == WantsLock && s.holder == Nobody
    case UnlockShutdown => s.destructor == Sets
    case NotifyAll => s.destructor == NotifiesAll
  }

  function WakeAll(workers: seq<Worker>): (ws: seq<Worker>)
    ensures |ws| == |workers|
    ensures forall w :: 0 <= w < |ws| ==> ws[w] == if workers[w] == Asleep then Wanting else workers[w]
  {
    seq(|workers|, w requires 0 <= w < |workers| => if workers[w] == Asleep then Wanting else workers[w])
  }

  function Apply(s: Pool, a: Action): Pool
    requires Enabled(s, a)
  {
    match a
    case Acquire(w) => s.(workers := s.workers[w := Checking], holder := TheWorker(w))
    case Take(w) =>
      s.(workers := s.workers[w := Running(s.tasks[0])], holder := Nobody,
         tasks := s.tasks[1..], started := s.started + [s.tasks[0]])
    case Exit(w) => s.(workers := s.workers[w := Exited], holder := Nobody)
    case Sleep(w) => s.(workers := s.workers[w := Asleep], holder := Nobody)
    case Finish(w) => s.(workers := s.workers[w := Wanting])
    case WakeSpuriously(w) => s.(workers := s.workers[w := Wanting])
    case Call(c, task) => s.(callers := s.callers[c := Locking(task)])
    case Push(c) =>
      s.(callers := s.callers[c := Holding], holder := TheCaller(c),
         tasks := s.tasks + [s.callers[c].task], submitted := s.submitted + [s.callers[c].task])
    case Unlock(c) => s.(callers := s.callers[c := Notifying], holder := Nobody)
    case NotifyOne(c, woken) =>
      var s' := s.(callers := s.callers[c := Idle]);
      if woken.Some? then s'.(workers := s.workers[woken.value := Wanting]) else s'
    case Destroy => s.(destructor := WantsLock)
    case SetShutdown => s.(destructor := Sets, holder := TheDestructor, isShutdown := true)
    case UnlockShutdown => s.(destructor := NotifiesAll, holder := Nobody)
    case NotifyAll => s.(destructor := Finished, workers := WakeAll(s.workers))
  }

  function Initial(workers: nat, callers: nat): Pool {
    Pool(seq(workers, _ => Wanting), seq(callers, _ => Idle), Alive, Nobody, [], false, [], [])
  }

  /** The state after a run, if every step of it is possible. */
  function After(s: Pool, run: seq<Action>): Option<Pool> {
    if run == [] then
      Some(s)
    else
      var before := After(s, run[..|run| - 1]);
      var last := run[|run| - 1];
      if before.Some? && Enabled(before.value, last) then Some(Apply(before.value, last)) else None
  }

  // ---------- what every run keeps ----------

  /** The mutex has one holder, and that thread is where it holds it. */
  ghost predicate LockInv(s: Pool) {
    && (forall w :: 0 <= w < |s.workers| ==> (s.workers[w] == Checking <==> s.holder == TheWorker(w)))
    && (forall c :: 0 <= c < |s.callers| ==> (s.callers[c] == Holding <==> s.holder == TheCaller(c)))
    && (s.destructor == Sets <==> s.holder == TheDestructor)
    && (s.holder.TheWorker? ==> s.holder.worker < |s.workers|)
    && (s.holder.TheCaller? ==> s.holder.caller < |s.callers|)
  }

  predicate IsReady(w: Worker) {
    w == Wanting || w == Checking
  }

  /** A pushed task whose notification is still to come. */
  predicate WillNotify(c: Caller) {
    c == Holding || c == Notifying
  }

  /** Work conservation: while somebody sleeps there are at most as many queued tasks as workers
      on their way to the queue and notifications on their way to a sleeper. */
  ghost predicate WorkInv(s: Pool) {
    SomeAsleep(s) ==> |s.tasks| <= Count(s.callers, WillNotify) + Count(s.workers, IsReady)
  }

  ghost predicate ShutdownInv(s: Pool) {
    && (s.isShutdown <==> s.destructor in {Sets, NotifiesAll, Finished})
    && (s.destructor != Alive ==> forall c :: 0 <= c < |s.callers| ==> s.callers[c] == Idle)
    && (s.destructor == Finished ==> !SomeAsleep(s))
    && (forall w :: 0 <= w < |s.workers| && s.workers[w] == Exited ==> s.isShutdown && s.tasks == [])
  }

  /** Tasks start in the order of submission, each of them once. */
  ghost predicate OrderInv(s: Pool) {
    s.submitted == s.started + s.tasks
  }

  ghost predicate Inv(s: Pool) {
    LockInv(s) && WorkInv(s) && ShutdownInv(s) && OrderInv(s)
  }

  predicate IsWorkerStep(a: Action) {
    a.Acquire? || a.Take? || a.Exit? || a.Sleep? || a.Finish? || a.WakeSpuriously?
  }

  lemma WorkerStepKeepsLock(s: Pool, a: Action)
    requires LockInv(s) && Enabled(s, a) && IsWorkerStep(a)
    ensures LockInv(Apply(s, a))
  {
    hide SomeAsleep, WakeAll;
  }

  predicate IsCallerStep(a: Action) {
    a.Call? || a.Push? || a.Unlock? || a.NotifyOne?
  }

  lemma CallerStepKeepsLock(s: Pool, a: Action)
    requires LockInv(s) && Enabled(s, a) && IsCallerStep(a)
    ensures LockInv(Apply(s, a))
  {
    hide SomeAsleep, WakeAll;
    if a.NotifyOne? {
      hide LockInv, Apply, Enabled;
      NotifyKeepsLock(s, a.c, a.woken);
    } else if a.Call? {
      hide LockInv, Apply, Enabled;
      CallKeepsLock(s, a.c, a.task);
    }
  }

  lemma CallKeepsLock(s: Pool, c: nat, task: nat)
    requires LockInv(s) && Enabled(s, Call(c, task))
    ensures LockInv(Apply(s, Call(c, task)))
  {
    hide SomeAsleep, WakeAll;
  }

  lemma NotifyKeepsLock(s: Pool, c: nat, woken: Option<nat>)
    requires LockInv(s) && Enabled(s, NotifyOne(c, woken))
    ensures LockInv(Apply(s, NotifyOne(c, woken)))
  {
    hide SomeAsleep, WakeAll;
  }

  lemma StepKeepsLock(s: Pool, a: Action)
    requires LockInv(s) && Enabled(s, a)
    ensures LockInv(Apply(s, a))
  {
    if IsWorkerStep(a) {
      hide LockInv, Apply, Enabled;
      WorkerStepKeepsLock(s, a);
    } else if IsCallerStep(a) {
      hide LockInv, Apply, Enabled;
      CallerStepKeepsLock(s, a);
    } else {
      hide SomeAsleep, WakeAll;
    }
  }

  lemma StepKeepsOrder(s: Pool, a: Action)
    requires OrderInv(s) && Enabled(s, a)
    ensures OrderInv(Apply(s, a))
  {
    if a.Take? {
      assert s.tasks == [s.tasks[0]] + s.tasks[1..];
    }
  }

  lemma WorkerStepKeepsShutdown(s: Pool, a: Action)
    requires ShutdownInv(s) && Enabled(s, a) && IsWorkerStep(a)
    ensures ShutdownInv(Apply(s, a))
  {
    hide WakeAll;
  }

  lemma CallerStepKeepsShutdown(s: Pool, a: Action)
    requires ShutdownInv(s) && Enabled(s, a) && IsCallerStep(a)
    ensures ShutdownInv(Apply(s, a))
  {
    hide WakeAll;
  }

  lemma StepKeepsShutdown(s: Pool, a: Action)
    requires LockInv(s) && ShutdownInv(s) && Enabled(s, a)
    ensures ShutdownInv(Apply(s, a))
  {
    if IsWorkerStep(a) {
      hide LockInv, ShutdownInv, Apply, Enabled;
      WorkerStepKeepsShutdown(s, a);
    } else if IsCallerStep(a) {
      hide LockInv, ShutdownInv, Apply, Enabled;
      CallerStepKeepsShutdown(s, a);
    }
  }

  lemma WorkerStepKeepsWork(s: Pool, a: Action)
    requires WorkInv(s) && Enabled(s, a) && IsWorkerStep(a)
    ensures WorkInv(Apply(s, a))
  {
    hide Count, WakeAll;
    var s' := Apply(s, a);
    match a {
      case Acquire(w) => CountUpdate(s.workers, w, Checking, IsReady); Awake(s, w, Checking);
      case Take(w) => CountUpdate(s.workers, w, s'.workers[w], IsReady); Awake(s, w, s'.workers[w]);
      case Exit(w) => CountUpdate(s.workers, w, Exited, IsReady); Awake(s, w, Exited);
      case Sleep(w) => CountUpdate(s.workers, w, Asleep, IsReady);
      case Finish(w) => CountUpdate(s.workers, w, Wanting, IsReady); Awake(s, w, Wanting);
      case WakeSpuriously(w) => CountUpdate(s.workers, w, Wanting, IsReady); Awake(s, w, Wanting);
      case _ =>
    }
  }

  lemma CallerStepKeepsWork(s: Pool, a: Action)
    requires WorkInv(s) && Enabled(s, a) && IsCallerStep(a)
    ensures WorkInv(Apply(s, a))
  {
    hide Count, WakeAll;
    var s' := Apply(s, a);
    match a {
      case Call(c, _) => CountUpdate(s.callers, c, s'.callers[c], WillNotify);
      case Push(c) => CountUpdate(s.callers, c, Holding, WillNotify);
      case Unlock(c) => CountUpdate(s.callers, c, Notifying, WillNotify);
      case NotifyOne(c, woken) =>
        CountUpdate(s.callers, c, Idle, WillNotify);
        if woken.Some? {
          CountUpdate(s.workers, woken.value, Wanting, IsReady);
          Awake(s, woken.value, Wanting);
        }
      case _ =>
    }
  }

  lemma StepKeepsWork(s: Pool, a: Action)
    requires WorkInv(s) && Enabled(s, a)
    ensures WorkInv(Apply(s, a))
  {
    hide Count;
    if IsWorkerStep(a) {
      hide WorkInv, Apply, Enabled;
      WorkerStepKeepsWork(s, a);
    } else if IsCallerStep(a) {
      hide WorkInv, Apply, Enabled;
      CallerStepKeepsWork(s, a);
    }
  }

  /** A worker that does not fall asleep makes nobody sleep. */
  lemma Awake(s: Pool, w: nat, phase: Worker)
    requires w < |s.workers| && phase != Asleep
    ensures SomeAsleep(s.(workers := s.workers[w := phase])) ==> SomeAsleep(s)
  {
  }

  lemma InitialInv(workers: nat, callers: nat)
    ensures Inv(Initial(workers, callers))
  {
  }

  lemma StepKeepsInv(s: Pool, a: Action)
    requires Inv(s) && Enabled(s, a)
    ensures Inv(Apply(s, a))
  {
    hide Apply, Enabled, LockInv, WorkInv, ShutdownInv, OrderInv;
    StepKeepsLock(s, a);
    StepKeepsWork(s, a);
    StepKeepsShutdown(s, a);
    StepKeepsOrder(s, a);
  }

  /** Every state of every run. */
  lemma {:induction false} RunKeepsInv(workers: nat, callers: nat, run: seq<Action>)
    ensures var s := After(Initial(workers, callers), run);
            s.Some? ==> Inv(s.value) && |s.value.workers| == workers && |s.value.callers| == callers
  {
    hide Inv, Enabled, Apply;
    if run == [] {
      InitialInv(workers, callers);
    } else {
      var before := After(Initial(workers, callers), run[..|run| - 1]);
      RunKeepsInv(workers, callers, run[..|run| - 1]);
      if before.Some? && Enabled(before.value, run[|run| - 1]) {
        StepKeepsInv(before.value, run[|run| - 1]);
        StepKeepsThreads(before.value, run[|run| - 1]);
      }
    }
  }

  lemma StepKeepsThreads(s: Pool, a: Action)
    requires Enabled(s, a)
    ensures |Apply(s, a).workers| == |s.workers| && |Apply(s, a).callers| == |s.callers|
  {
    hide SomeAsleep;
  }

  // ---------- where the task of a call is ----------

  /** The arguments of all calls of `execute`. */
  function Called(run: seq<Action>): seq<nat> {
    if run == [] then [] else Called(run[..|run| - 1]) + (if run[|run| - 1].Call? then [run[|run| - 1].task] else [])
  }

  /** The task a worker is running when it finishes. */
  function FinishedBy(s: Pool, a: Action): seq<nat> {
    if a.Finish? && a.w < |s.workers| && s.workers[a.w].Running? then [s.workers[a.w].task] else []
  }

  /** The task a caller pushes. */
  function PushedBy(s: Pool, a: Action): seq<nat> {
    if a.Push? && a.c < |s.callers| && s.callers[a.c].Locking? then [s.callers[a.c].task] else []
  }

  /** The task a worker is running when it has taken one. */
  function TakenBy(s': Pool, a: Action): seq<nat> {
    if a.Take? && a.w < |s'.workers| && s'.workers[a.w].Running? then [s'.workers[a.w].task] else []
  }

  /** What workers have executed to the end, what callers have pushed and what workers have begun to
      execute, each in order, read off the threads' own phases. */
  function Executed(workers: nat, callers: nat, run: seq<Action>): seq<nat> {
    if run == [] then [] else
      var before := After(Initial(workers, callers), run[..|run| - 1]);
      Executed(workers, callers, run[..|run| - 1]) +
      (if before.Some? then FinishedBy(before.value, run[|run| - 1]) else [])
  }

  function Pushed(workers: nat, callers: nat, run: seq<Action>): seq<nat> {
    if run == [] then [] else
      var before := After(Initial(workers, callers), run[..|run| - 1]);
      Pushed(workers, callers, run[..|run| - 1]) +
      (if before.Some? then PushedBy(before.value, run[|run| - 1]) else [])
  }

  function Begun(workers: nat, callers: nat, run: seq<Action>): seq<nat> {
    if run == [] then [] else
      var after := After(Initial(workers, callers), run);
      Begun(workers, callers, run[..|run| - 1]) +
      (if after.Some? then TakenBy(after.value, run[|run| - 1]) else [])
  }

  function OfWorker(w: Worker): multiset<nat> {
    if w.Running? then multiset{w.task} else multiset{}
  }

  function OfCaller(c: Caller): multiset<nat> {
    if c.Locking? then multiset{c.task} else multiset{}
  }

  /** The tasks that callers are about to push, that are queued and that workers are running. */
  function InThePool(s: Pool): multiset<nat> {
    Gather(s.callers, OfCaller) + multiset(s.tasks) + Gather(s.workers, OfWorker)
  }

  /** A worker takes the front of the queue, finishes its task, or keeps its hands free. */
  lemma WorkerStepMoves(s: Pool, a: Action)
    requires Enabled(s, a) && IsWorkerStep(a)
    ensures var s' := Apply(s, a);
            && a.w < |s.workers| && s'.workers == s.workers[a.w := s'.workers[a.w]] && s'.callers == s.callers
            && multiset(s'.tasks) + OfWorker(s'.workers[a.w]) + multiset(FinishedBy(s, a)) ==
               multiset(s.tasks) + OfWorker(s.workers[a.w])
  {
    if a.Take? {
      hide Enabled, Apply;
      TakeMoves(s, a.w);
    } else if a.Finish? {
      hide Enabled, Apply;
      FinishMoves(s, a.w);
    } else {
      hide SomeAsleep, WakeAll;
    }
  }

  lemma FinishMoves(s: Pool, w: nat)
    requires Enabled(s, Finish(w))
    ensures var s' := Apply(s, Finish(w));
            && w < |s.workers| && s'.workers == s.workers[w := s'.workers[w]] && s'.callers == s.callers
            && s'.tasks == s.tasks && OfWorker(s'.workers[w]) == multiset{}
            && multiset(FinishedBy(s, Finish(w))) == OfWorker(s.workers[w])
  {
    hide SomeAsleep, WakeAll;
  }

  lemma TakeMoves(s: Pool, w: nat)
    requires Enabled(s, Take(w))
    ensures var s' := Apply(s, Take(w));
            && w < |s.workers| && s'.workers == s.workers[w := s'.workers[w]] && s'.callers == s.callers
            && multiset(s'.tasks) + OfWorker(s'.workers[w]) == multiset(s.tasks) + OfWorker(s.workers[w])
  {
    hide SomeAsleep, WakeAll;
    assert s.tasks == [s.tasks[0]] + s.tasks[1..];
  }

  lemma WorkerStepKeepsTasks(s: Pool, a: Action)
    requires Enabled(s, a) && IsWorkerStep(a)
    ensures InThePool(Apply(s, a)) + multiset(FinishedBy(s, a)) == InThePool(s)
  {
    hide Gather, Apply, Enabled, OfWorker, FinishedBy;
    WorkerStepMoves(s, a);
    var s' := Apply(s, a);
    GatherUpdate(s.workers, a.w, s'.workers[a.w], OfWorker);
    SumOfThree(Gather(s.callers, OfCaller), multiset(s'.tasks), Gather(s'.workers, OfWorker),
               multiset(FinishedBy(s, a)), multiset(s.tasks), Gather(s.workers, OfWorker),
               OfWorker(s'.workers[a.w]), OfWorker(s.workers[a.w]));
  }

  lemma SumOfThree(c: multiset<nat>, t': multiset<nat>, w': multiset<nat>, out: multiset<nat>, t: multiset<nat>,
                   w: multiset<nat>, h': multiset<nat>, h: multiset<nat>)
    requires t' + h' + out == t + h && w' + h == w + h'
    ensures c + t' + w' + out == c + t + w
  {
    forall x
      ensures (c + t' + w' + out)[x] == (c + t + w)[x]
    {
      assert (t' + h' + out)[x] == (t + h)[x] && (w' + h)[x] == (w + h')[x];
    }
  }

  /** A caller makes a call, moves its task to the end of the queue, or has its hands free. */
  lemma CallerStepMoves(s: Pool, a: Action)
    requires Enabled(s, a) && IsCallerStep(a) && !a.NotifyOne?
    ensures var s' := Apply(s, a);
            && a.c < |s.callers| && s'.callers == s.callers[a.c := s'.callers[a.c]] && s'.workers == s.workers
            && multiset(s'.tasks) + OfCaller(s'.callers[a.c]) ==
               multiset(s.tasks) + OfCaller(s.callers[a.c]) + (if a.Call? then multiset{a.task} else multiset{})
  {
    hide SomeAsleep, WakeAll;
  }

  lemma CallerStepKeepsTasks(s: Pool, a: Action)
    requires Enabled(s, a) && IsCallerStep(a) && !a.NotifyOne?
    ensures InThePool(Apply(s, a)) == InThePool(s) + (if a.Call? then multiset{a.task} else multiset{})
  {
    hide Gather, Apply, Enabled, OfCaller;
    CallerStepMoves(s, a);
    var s' := Apply(s, a);
    var arrived := if a.Call? then multiset{a.task} else multiset{};
    GatherUpdate(s.callers, a.c, s'.callers[a.c], OfCaller);
    SumOfThree(Gather(s.workers, OfWorker), multiset(s.tasks), Gather(s.callers, OfCaller), arrived, multiset(s'.tasks),
               Gather(s'.callers, OfCaller), OfCaller(s.callers[a.c]), OfCaller(s'.callers[a.c]));
    assert InThePool(s) == Gather(s.workers, OfWorker) + multiset(s.tasks) + Gather(s.callers, OfCaller);
    assert InThePool(s') == Gather(s.workers, OfWorker) + multiset(s'.tasks) + Gather(s'.callers, OfCaller);
  }

  lemma NotifyKeepsTasks(s: Pool, c: nat, woken: Option<nat>)
    requires Enabled(s, NotifyOne(c, woken))
    ensures InThePool(Apply(s, NotifyOne(c, woken))) == InThePool(s)
  {
    hide Gather, Apply, Enabled;
    NotifyMoves(s, c, woken);
    var s' := Apply(s, NotifyOne(c, woken));
    GatherSame(s.callers, s'.callers, OfCaller);
    GatherSame(s.workers, s'.workers, OfWorker);
  }

  lemma NotifyMoves(s: Pool, c: nat, woken: Option<nat>)
    requires Enabled(s, NotifyOne(c, woken))
    ensures var s' := Apply(s, NotifyOne(c, woken));
            && s'.tasks == s.tasks && |s'.callers| == |s.callers| && |s'.workers| == |s.workers|
            && (forall i :: 0 <= i < |s.callers| ==> OfCaller(s'.callers[i]) == OfCaller(s.callers[i]))
            && (forall i :: 0 <= i < |s.workers| ==> OfWorker(s'.workers[i]) == OfWorker(s.workers[i]))
  {
    hide SomeAsleep, WakeAll;
    if woken.Some? {
      SleeperHoldsNone(s, c, woken.value);
    }
  }

  lemma SleeperHoldsNone(s: Pool, c: nat, w: nat)
    requires Enabled(s, NotifyOne(c, Some(w)))
    ensures w < |s.workers| && s.workers[w] == Asleep
  {
  }

  /** A step moves tasks from one place to another; a call brings one in, and a worker that has executed
      one takes it out. */
  lemma StepKeepsTasks(s: Pool, a: Action)
    requires Enabled(s, a)
    ensures InThePool(Apply(s, a)) + multiset(FinishedBy(s, a)) ==
            InThePool(s) + (if a.Call? then multiset{a.task} else multiset{})
  {
    if IsWorkerStep(a) {
      hide Apply, Enabled, InThePool;
      WorkerStepKeepsTasks(s, a);
    } else if a.NotifyOne? {
      hide Apply, Enabled, InThePool;
      NotifyKeepsTasks(s, a.c, a.woken);
    } else if IsCallerStep(a) {
      hide Apply, Enabled, InThePool;
      CallerStepKeepsTasks(s, a);
    } else {
      hide Apply, Enabled, InThePool;
      DestructorStepKeepsTasks(s, a);
    }
  }

  lemma DestructorStepKeepsTasks(s: Pool, a: Action)
    requires Enabled(s, a) && !IsWorkerStep(a) && !IsCallerStep(a)
    ensures FinishedBy(s, a) == [] && InThePool(Apply(s, a)) == InThePool(s)
  {
    hide Gather, SomeAsleep, WakeAll;
    GatherSame(s.workers, WakeAll(s.workers), OfWorker);
  }

  /** After every run each task of each call has been executed, is being executed, is queued, or is about
      to be pushed: none is lost, and none is executed twice. */
  lemma {:induction false} EveryTaskIsSomewhere(workers: nat, callers: nat, run: seq<Action>)
    ensures var s := After(Initial(workers, callers), run);
            s.Some? ==> multiset(Called(run)) == multiset(Executed(workers, callers, run)) + InThePool(s.value)
  {
    hide InThePool, Enabled, Apply, FinishedBy;
    if run == [] {
      NothingAtFirst(workers, callers);
    } else {
      var front, last := run[..|run| - 1], run[|run| - 1];
      var before := After(Initial(workers, callers), front);
      EveryTaskIsSomewhere(workers, callers, front);
      if before.Some? && Enabled(before.value, last) {
        StepKeepsTasks(before.value, last);
        var arrived := if last.Call? then [last.task] else [];
        var done := FinishedBy(before.value, last);
        assert multiset(Called(run)) == multiset(Called(front)) + multiset(arrived);
        assert Executed(workers, callers, run) == Executed(workers, callers, front) + done;
        var executed := Executed(workers, callers, front);
        assert multiset(Executed(workers, callers, run)) == multiset(executed) + multiset(done);
        Rearranged(multiset(Executed(workers, callers, front)), InThePool(before.value), multiset(arrived),
                   InThePool(Apply(before.value, last)), multiset(done));
      }
    }
  }

  lemma Rearranged(executed: multiset<nat>, here: multiset<nat>, arrived: multiset<nat>, after: multiset<nat>,
                   done: multiset<nat>)
    requires after + done == here + arrived
    ensures executed + here + arrived == executed + done + after
  {
    forall x
      ensures (executed + here + arrived)[x] == (executed + done + after)[x]
    {
      assert (after + done)[x] == (here + arrived)[x];
    }
  }

  lemma NothingAtFirst(workers: nat, callers: nat)
    ensures InThePool(Initial(workers, callers)) == multiset{}
  {
    GatherNone(Initial(workers, callers).workers, OfWorker);
    GatherNone(Initial(workers, callers).callers, OfCaller);
  }

  lemma StepRecords(s: Pool, a: Action)
    requires Enabled(s, a)
    ensures Apply(s, a).submitted == s.submitted + PushedBy(s, a)
    ensures Apply(s, a).started == s.started + TakenBy(Apply(s, a), a)
  {
    hide SomeAsleep, WakeAll;
    assert s.submitted + [] == s.submitted && s.started + [] == s.started;
  }

  /** Tasks begin to be executed in the order in which they were pushed, and the queue holds the rest. */
  lemma {:induction false} FirstPushedFirstExecuted(workers: nat, callers: nat, run: seq<Action>)
    ensures var s := After(Initial(workers, callers), run);
            s.Some? ==>
              && Pushed(workers, callers, run) == Begun(workers, callers, run) + s.value.tasks
              && s.value.submitted == Pushed(workers, callers, run)
              && s.value.started == Begun(workers, callers, run)
  {
    hide Enabled, Apply, PushedBy, TakenBy, Inv;
    RunKeepsInv(workers, callers, run);
    RunRecords(workers, callers, run);
    var s := After(Initial(workers, callers), run);
    if s.Some? {
      InvHasOrder(s.value);
    }
  }

  lemma InvHasOrder(s: Pool)
    requires Inv(s)
    ensures s.submitted == s.started + s.tasks
  {
  }

  lemma {:induction false} RunRecords(workers: nat, callers: nat, run: seq<Action>)
    ensures var s := After(Initial(workers, callers), run);
            s.Some? ==>
              && s.value.submitted == Pushed(workers, callers, run)
              && s.value.started == Begun(workers, callers, run)
  {
    hide Enabled, Apply, PushedBy, TakenBy;
    if run != [] {
      var front, last := run[..|run| - 1], run[|run| - 1];
      var before := After(Initial(workers, callers), front);
      RunRecords(workers, callers, front);
      if before.Some? && Enabled(before.value, last) {
        StepRecords(before.value, last);
      }
    }
  }

  // ---------- no task is left behind ----------

  /** Every step but a new call, the start of the destruction, and a wake-up without a cause. */
  predicate IsDue(a: Action) {
    !a.Call? && !a.WakeSpuriously? && !a.Destroy?
  }

  /** Nothing is left that must happen. */
  ghost predicate Stuck(s: Pool) {
    forall a :: Enabled(s, a) ==> !IsDue(a)
  }

  ghost predicate CanMove(s: Pool) {
    exists a :: Enabled(s, a) && IsDue(a)
  }

  lemma HolderMoves(s: Pool)
    requires LockInv(s) && s.holder != Nobody
    ensures CanMove(s)
  {
    match s.holder {
      case TheWorker(w) => assert Enabled(s, Take(w)) || Enabled(s, Exit(w)) || Enabled(s, Sleep(w));
      case TheCaller(c) => assert Enabled(s, Unlock(c));
      case TheDestructor => assert Enabled(s, UnlockShutdown);
    }
  }

  lemma WorkerMoves(s: Pool, w: nat)
    requires LockInv(s) && s.holder == Nobody && w < |s.workers| && s.workers[w] != Asleep && s.workers[w] != Exited
    ensures CanMove(s)
  {
    assert Enabled(s, Acquire(w)) || Enabled(s, Finish(w));
  }

  lemma CallerMoves(s: Pool, c: nat)
    requires LockInv(s) && s.holder == Nobody && c < |s.callers| && s.callers[c] != Idle
    ensures CanMove(s)
  {
    if s.callers[c].Locking? {
      assert Enabled(s, Push(c));
    } else if SomeAsleep(s) {
      var w :| 0 <= w < |s.workers| && s.workers[w] == Asleep;
      assert Enabled(s, NotifyOne(c, Some(w)));
    } else {
      assert Enabled(s, NotifyOne(c, None));
    }
  }

  lemma DestructorMoves(s: Pool)
    requires s.holder == Nobody && (s.destructor == WantsLock || s.destructor == NotifiesAll)
    ensures CanMove(s)
  {
    assert Enabled(s, SetShutdown) || Enabled(s, NotifyAll);
  }

  lemma StuckThreads(s: Pool)
    requires LockInv(s) && Stuck(s)
    ensures s.holder == Nobody
    ensures forall w :: 0 <= w < |s.workers| ==> s.workers[w] == Asleep || s.workers[w] == Exited
    ensures forall c :: 0 <= c < |s.callers| ==> s.callers[c] == Idle
    ensures s.destructor == Alive || s.destructor == Finished
  {
    hide LockInv, Enabled;
    if s.holder != Nobody {
      HolderMoves(s);
    }
    forall w | 0 <= w < |s.workers|
      ensures s.workers[w] == Asleep || s.workers[w] == Exited
    {
      if s.workers[w] != Asleep && s.workers[w] != Exited {
        WorkerMoves(s, w);
      }
    }
    forall c | 0 <= c < |s.callers|
      ensures s.callers[c] == Idle
    {
      if s.callers[c] != Idle {
        CallerMoves(s, c);
      }
    }
    NobodySets(s);
    if s.destructor == WantsLock || s.destructor == NotifiesAll {
      DestructorMoves(s);
    }
  }

  lemma NobodySets(s: Pool)
    requires LockInv(s) && s.holder == Nobody
    ensures s.destructor != Sets
  {
  }

  /** A pool with a worker comes to rest only when every submitted task has been started, and after
      shutdown only when every worker has gone. The tasks executed are then just those of all calls, each
      as often as it was called with. */
  lemma NothingLeftBehind(workers: nat, callers: nat, run: seq<Action>)
    requires workers > 0
    ensures var s := After(Initial(workers, callers), run);
            s.Some? && Stuck(s.value) ==>
              && s.value.tasks == [] && s.value.started == s.value.submitted
              && (s.value.isShutdown ==> forall w :: 0 <= w < |s.value.workers| ==> s.value.workers[w] == Exited)
              && multiset(Executed(workers, callers, run)) == multiset(Called(run))
  {
    hide Gather, Executed, Called, After;
    var r := After(Initial(workers, callers), run);
    RunKeepsInv(workers, callers, run);
    if r.Some? && Stuck(r.value) {
      var s := r.value;
      StuckThreads(s);
      CountZero(s.callers, WillNotify);
      CountZero(s.workers, IsReady);
      assert s.workers[0] == Asleep ==> SomeAsleep(s);
      assert s.workers[0] == Exited ==> s.tasks == [];
      assert s.started + [] == s.started;
      EveryTaskIsSomewhere(workers, callers, run);
      GatherNone(s.workers, OfWorker);
      GatherNone(s.callers, OfCaller);
    }
  }

  // ---------- after shutdown the pool comes to rest ----------

  function WorkerSteps(w: Worker): nat {
    match w
    case Exited => 0
    case Checking => 1
    case Wanting => 2
    case Running(_) => 3
    case Asleep => 3
  }

  function AllSteps(workers: seq<Worker>): nat {
    if workers == [] then 0 else AllSteps(workers[..|workers| - 1]) + WorkerSteps(workers[|workers| - 1])
  }

  /** An upper bound of the steps that are left once `isShutdown` is set. */
  function StepsLeft(s: Pool): nat {
    3 * |s.tasks| + AllSteps(s.workers) +
    match s.destructor
    case Alive => 4
    case WantsLock => 3
    case Sets => 2
    case NotifiesAll => 1
    case Finished => 0
  }

  lemma {:induction false} AllStepsUpdate(workers: seq<Worker>, w: nat, phase: Worker)
    requires w < |workers|
    ensures AllSteps(workers[w := phase]) == AllSteps(workers) - WorkerSteps(workers[w]) + WorkerSteps(phase)
  {
    var n := |workers| - 1;
    if w == n {
      assert workers[w := phase][..n] == workers[..n];
    } else {
      assert workers[w := phase][..n] == workers[..n][w := phase];
      AllStepsUpdate(workers[..n], w, phase);
    }
  }

  lemma {:induction false} WakeAllSteps(workers: seq<Worker>)
    ensures AllSteps(WakeAll(workers)) <= AllSteps(workers)
  {
    if workers != [] {
      var n := |workers| - 1;
      assert WakeAll(workers)[..n] == WakeAll(workers[..n]);
      WakeAllSteps(workers[..n]);
    }
  }

  lemma ShutdownWorkerStep(s: Pool, a: Action)
    requires Enabled(s, a) && s.isShutdown && IsWorkerStep(a)
    ensures StepsLeft(Apply(s, a)) < StepsLeft(s) && Apply(s, a).isShutdown
  {
    hide AllSteps, WakeAll, SomeAsleep;
    match a {
      case Acquire(w) => AllStepsUpdate(s.workers, w, Checking);
      case Take(w) => AllStepsUpdate(s.workers, w, Running(s.tasks[0]));
      case Exit(w) => AllStepsUpdate(s.workers, w, Exited);
      case Finish(w) => AllStepsUpdate(s.workers, w, Wanting);
      case WakeSpuriously(w) => AllStepsUpdate(s.workers, w, Wanting);
      case _ =>
    }
  }

  /** After shutdown every step, whichever thread takes it, brings the pool closer to rest. */
  lemma ShutdownTerminates(s: Pool, a: Action)
    requires Inv(s) && s.isShutdown && Enabled(s, a)
    ensures StepsLeft(Apply(s, a)) < StepsLeft(s) && Apply(s, a).isShutdown
  {
    hide AllSteps, WakeAll, LockInv, WorkInv, OrderInv, SomeAsleep;
    if IsWorkerStep(a) {
      hide StepsLeft, Apply, Enabled;
      ShutdownWorkerStep(s, a);
    } else if a.NotifyAll? {
      WakeAllSteps(s.workers);
    }
  }

  /** So a run from a state in which `isShutdown` is set has at most `StepsLeft` steps. */
  lemma {:induction false} ShutdownRunIsBounded(s: Pool, run: seq<Action>)
    requires Inv(s) && s.isShutdown
    ensures var r := After(s, run);
            r.Some? ==> Inv(r.value) && r.value.isShutdown && |run| + StepsLeft(r.value) <= StepsLeft(s)
  {
    hide Inv, StepsLeft;
    if run != [] {
      var before, last := After(s, run[..|run| - 1]), run[|run| - 1];
      ShutdownRunIsBounded(s, run[..|run| - 1]);
      if before.Some? && Enabled(before.value, last) {
        StepKeepsInv(before.value, last);
        ShutdownTerminates(before.value, last);
      }
    }
  }

  // ---------- the pool comes to rest without shutdown, too ----------

  function WorkerWork(w: Worker): nat {
    match w
    case Exited => 0
    case Asleep => 0
    case Checking => 1
    case Wanting => 2
    case Running(_) => 3
  }

  function CallerWork(c: Caller): nat {
    match c
    case Idle => 0
    case Notifying => 3
    case Holding => 4
    case Locking(_) => 8
  }

  function AllWorkerWork(workers: seq<Worker>): nat {
    if workers == [] then 0 else AllWorkerWork(workers[..|workers| - 1]) + WorkerWork(workers[|workers| - 1])
  }

  function AllCallerWork(callers: seq<Caller>): nat {
    if callers == [] then 0 else AllCallerWork(callers[..|callers| - 1]) + CallerWork(callers[|callers| - 1])
  }

  /** An upper bound of the due steps that are left. The last notification can wake every worker. */
  function Work(s: Pool): nat {
    3 * |s.tasks| + AllWorkerWork(s.workers) + AllCallerWork(s.callers) +
    match s.destructor
    case Alive => 0
    case WantsLock => 2 * |s.workers| + 3
    case Sets => 2 * |s.workers| + 2
    case NotifiesAll => 2 * |s.workers| + 1
    case Finished => 0
  }

  lemma {:induction false} WorkerUpdate(workers: seq<Worker>, w: nat, phase: Worker)
    requires w < |workers|
    ensures AllWorkerWork(workers[w := phase]) == AllWorkerWork(workers) - WorkerWork(workers[w]) + WorkerWork(phase)
  {
    var n := |workers| - 1;
    if w == n {
      assert workers[w := phase][..n] == workers[..n];
    } else {
      assert workers[w := phase][..n] == workers[..n][w := phase];
      WorkerUpdate(workers[..n], w, phase);
    }
  }

  lemma {:induction false} CallerUpdate(callers: seq<Caller>, c: nat, phase: Caller)
    requires c < |callers|
    ensures AllCallerWork(callers[c := phase]) == AllCallerWork(callers) - CallerWork(callers[c]) + CallerWork(phase)
  {
    var n := |callers| - 1;
    if c == n {
      assert callers[c := phase][..n] == callers[..n];
    } else {
      assert callers[c := phase][..n] == callers[..n][c := phase];
      CallerUpdate(callers[..n], c, phase);
    }
  }

  lemma {:induction false} WakeAllWork(workers: seq<Worker>)
    ensures AllWorkerWork(WakeAll(workers)) <= AllWorkerWork(workers) + 2 * |workers|
  {
    if workers != [] {
      var n := |workers| - 1;
      assert WakeAll(workers)[..n] == WakeAll(workers[..n]);
      WakeAllWork(workers[..n]);
    }
  }

  lemma WorkerStepIsProgress(s: Pool, a: Action)
    requires Enabled(s, a) && IsDue(a) && IsWorkerStep(a)
    ensures Work(Apply(s, a)) < Work(s)
  {
    hide AllWorkerWork, AllCallerWork, WakeAll, SomeAsleep;
    match a {
      case Acquire(w) => WorkerUpdate(s.workers, w, Checking);
      case Take(w) => WorkerUpdate(s.workers, w, Running(s.tasks[0]));
      case Exit(w) => WorkerUpdate(s.workers, w, Exited);
      case Sleep(w) => WorkerUpdate(s.workers, w, Asleep);
      case Finish(w) => WorkerUpdate(s.workers, w, Wanting);
      case _ =>
    }
  }

  lemma CallerStepIsProgress(s: Pool, a: Action)
    requires Enabled(s, a) && IsDue(a) && IsCallerStep(a)
    ensures Work(Apply(s, a)) < Work(s)
  {
    hide AllWorkerWork, AllCallerWork, WakeAll, SomeAsleep;
    match a {
      case Push(c) => CallerUpdate(s.callers, c, Holding);
      case Unlock(c) => CallerUpdate(s.callers, c, Notifying);
      case NotifyOne(c, woken) =>
        CallerUpdate(s.callers, c, Idle);
        NotifiedWork(s, c, woken);
      case _ =>
    }
  }

  /** Every due step, before shutdown or after it, brings the pool closer to rest. */
  lemma DueStepIsProgress(s: Pool, a: Action)
    requires Enabled(s, a) && IsDue(a)
    ensures Work(Apply(s, a)) < Work(s)
  {
    hide AllWorkerWork, AllCallerWork, WakeAll, SomeAsleep;
    if IsWorkerStep(a) {
      hide Work, Apply, Enabled;
      WorkerStepIsProgress(s, a);
    } else if IsCallerStep(a) {
      hide Work, Apply, Enabled;
      CallerStepIsProgress(s, a);
    } else if a.NotifyAll? {
      WakeAllWork(s.workers);
    }
  }

  lemma NotifiedWork(s: Pool, c: nat, woken: Option<nat>)
    requires Enabled(s, NotifyOne(c, woken))
    ensures AllWorkerWork(Apply(s, NotifyOne(c, woken)).workers) <= AllWorkerWork(s.workers) + 2
  {
    if woken.Some? {
      WorkerUpdate(s.workers, woken.value, Wanting);
    }
  }

  ghost predicate DueRun(run: seq<Action>) {
    forall a :: a in run ==> IsDue(a)
  }

  /** So without new calls, spurious wake-ups and the start of the destruction a run has at most `Work`
      steps; where it cannot go on, `NothingLeftBehind` says that every task was started. */
  lemma {:induction false} DueRunIsBounded(s: Pool, run: seq<Action>)
    requires DueRun(run) && After(s, run).Some?
    ensures |run| + Work(After(s, run).value) <= Work(s)
  {
    hide Work, Enabled, Apply, IsDue;
    if run != [] {
      var before, last := run[..|run| - 1], run[|run| - 1];
      assert last in run;
      DueRunIsBounded(s, before);
      DueStepIsProgress(After(s, before).value, last);
    }
  }
}
