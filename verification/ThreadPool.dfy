/** The thread pool as a concurrent step system (server/worker.c, the accept and
    exit branches of server/server.c, threadPool.c).  One step is what one thread
    does between two points where another thread could be scheduled.  Mutex and
    condition variable follow POSIX.1: a signal wakes at least one waiter, waits
    may end spuriously, and a woken waiter competes for the mutex again. */
module ThreadPool {

  /** Where a worker stands in `workerFunc`.  `pos` counts pops, so it names the
      push that the worker took even when a descriptor number is used again. */
  datatype Worker =
    | Unborn                      // pthread_create not yet called for it
    | AtLock                      // line 48, wants the mutex
    | Holding                     // line 49, about to test the loop condition
    | Waiting                     // line 51, blocked, not signalled
    | Signalled                   // line 51, woken, wants the mutex back
    | Leaving                     // line 56, saw the exit flag
    | Ready                       // line 61, about to read the head
    | Peeked(fd: int)             // line 62, about to pop
    | Popped(fd: int, pos: nat)   // line 63, about to unlock
    | Busy(fd: int, pos: nat)     // line 66, in handleClient
    | Exited

  /** Where the main thread stands in `main`. */
  datatype Main =
    | Spawning(next: nat)         // makeWorker
    | Idle                        // epoll_wait
    | WantPush(fd: int)           // line 84
    | Pushing(fd: int)            // line 85
    | Signalling                  // line 86
    | UnlockPush                  // line 87
    | WantExit                    // line 93
    | SettingExit                 // line 94
    | Broadcasting                // line 95
    | UnlockExit                  // line 96
    | Joining(next: nat)          // line 100
    | Returned                    // line 107

  datatype Thread = MainThread | WorkerThread(index: nat)

  datatype Owner = Free | HeldBy(thread: Thread)

  datatype Take = Take(worker: nat, fd: int)

  /** The shared pool and every thread's position; `pushed` and `taken` are the
      histories of the queue's pushes and pops. */
  datatype Pool = Pool(workers: seq<Worker>, main: Main, owner: Owner,
                       exitFlag: int, queue: seq<int>,
                       pushed: seq<int>, taken: seq<Take>)

  /** threadPoolInit, before any worker exists. */
  function Init(n: nat): Pool {
    Pool(seq(n, i => Unborn), Spawning(0), Free, 0, [], [], [])
  }

  datatype Step =
    // main thread
    | Spawn | Accept(newFd: int) | LockPush | Push | Signal(woken: set<nat>) | UnlockAfterPush
    | ExitEvent | LockExit | SetExit | Broadcast | UnlockAfterExit | Join
    // worker `w`
    | Lock(w: nat) | Wait(w: nat) | WakeSpuriously(w: nat) | SeeExit(w: nat) | UnlockAndExit(w: nat)
    | SeeTask(w: nat) | Peek(w: nat) | Pop(w: nat) | UnlockWithTask(w: nat) | HandlerReturns(w: nat)

  /** A step of the main thread; every other step is a worker's. */
  predicate OfMain(step: Step) {
    || step.Spawn? || step.Accept? || step.LockPush? || step.Push? || step.Signal? || step.UnlockAfterPush?
    || step.ExitEvent? || step.LockExit? || step.SetExit? || step.Broadcast? || step.UnlockAfterExit? || step.Join?
  }

  /** A step that no outside event and no handler is waited for. */
  predicate Internal(step: Step) {
    !step.Accept? && !step.ExitEvent? && !step.HandlerReturns? && !step.WakeSpuriously?
  }

  predicate Is(s: Pool, w: nat, x: Worker) { w < |s.workers| && s.workers[w] == x }

  /** The signal's choice: some waiting workers, at least one if any waits. */
  predicate MayWake(workers: seq<Worker>, woken: set<nat>) {
    && (forall w | w in woken :: w < |workers| && workers[w].Waiting?)
    && (woken == {} ==> forall w :: 0 <= w < |workers| ==> !workers[w].Waiting?)
  }

  predicate Enabled(s: Pool, step: Step) {
    match step
    case Spawn => s.main.Spawning?
    case Accept(_) => s.main.Idle?
    case LockPush => s.main.WantPush? && s.owner.Free?
    case Push => s.main.Pushing?
    case Signal(woken) => s.main.Signalling? && MayWake(s.workers, woken)
    case UnlockAfterPush => s.main.UnlockPush?
    case ExitEvent => s.main.Idle?
    case LockExit => s.main.WantExit? && s.owner.Free?
    case SetExit => s.main.SettingExit?
    case Broadcast => s.main.Broadcasting?
    case UnlockAfterExit => s.main.UnlockExit?
    case Join => s.main.Joining? && (s.main.next < |s.workers| ==> s.workers[s.main.next].Exited?)
    case Lock(w) => (Is(s, w, AtLock) || Is(s, w, Signalled)) && s.owner.Free?
    case Wait(w) => Is(s, w, Holding) && s.exitFlag == 0 && |s.queue| <= 0
    case WakeSpuriously(w) => Is(s, w, Waiting)
    case SeeExit(w) => Is(s, w, Holding) && !(s.exitFlag == 0 && |s.queue| <= 0) && s.exitFlag == 1
    case UnlockAndExit(w) => Is(s, w, Leaving)
    case SeeTask(w) => Is(s, w, Holding) && !(s.exitFlag == 0 && |s.queue| <= 0) && s.exitFlag != 1
    case Peek(w) => Is(s, w, Ready)
    case Pop(w) => w < |s.workers| && s.workers[w].Peeked?
    case UnlockWithTask(w) => w < |s.workers| && s.workers[w].Popped?
    case HandlerReturns(w) => w < |s.workers| && s.workers[w].Busy?
  }

  /** The waiters in `woken` leave the condition variable. */
  function Woken(workers: seq<Worker>, woken: set<nat>): (r: seq<Worker>)
    ensures |r| == |workers|
  {
    seq(|workers|, i requires 0 <= i < |workers| =>
      if i in woken && workers[i].Waiting? then Signalled else workers[i])
  }

  function AllWaiting(workers: seq<Worker>): set<nat> {
    set w: nat | w < |workers| && workers[w].Waiting?
  }

  function Moved(s: Pool, w: nat, x: Worker): Pool
    requires w < |s.workers|
  {
    s.(workers := s.workers[w := x])
  }

  /** The head of the queue; reading it when the queue is empty follows a stale
      pointer, which `Inv` rules out. */
  function Head(q: seq<int>): int { if q == [] then -1 else q[0] }

  function Apply(s: Pool, step: Step): Pool
    requires Enabled(s, step)
  {
    match step
    case Spawn =>
      if s.main.next < |s.workers|
      then Moved(s, s.main.next, AtLock).(main := Spawning(s.main.next + 1))
      else s.(main := Idle)
    case Accept(fd) => s.(main := WantPush(fd))
    case LockPush => s.(main := Pushing(s.main.fd), owner := HeldBy(MainThread))
    case Push => s.(main := Signalling, queue := s.queue + [s.main.fd], pushed := s.pushed + [s.main.fd])
    case Signal(woken) => s.(main := UnlockPush, workers := Woken(s.workers, woken))
    case UnlockAfterPush => s.(main := Idle, owner := Free)
    case ExitEvent => s.(main := WantExit)
    case LockExit => s.(main := SettingExit, owner := HeldBy(MainThread))
    case SetExit => s.(main := Broadcasting, exitFlag := 1)
    case Broadcast => s.(main := UnlockExit, workers := Woken(s.workers, AllWaiting(s.workers)))
    case UnlockAfterExit => s.(main := Joining(0), owner := Free)
    case Join => s.(main := if s.main.next < |s.workers| then Joining(s.main.next + 1) else Returned)
    case Lock(w) => Moved(s, w, Holding).(owner := HeldBy(WorkerThread(w)))
    case Wait(w) => Moved(s, w, Waiting).(owner := Free)
    case WakeSpuriously(w) => Moved(s, w, Signalled)
    case SeeExit(w) => Moved(s, w, Leaving)
    case UnlockAndExit(w) => Moved(s, w, Exited).(owner := Free)
    case SeeTask(w) => Moved(s, w, Ready)
    case Peek(w) => Moved(s, w, Peeked(Head(s.queue)))
    case Pop(w) =>
      Moved(s, w, Popped(s.workers[w].fd, |s.taken|)).(
        queue := if s.queue == [] then [] else s.queue[1..],
        taken := s.taken + [Take(w, s.workers[w].fd)])
    case UnlockWithTask(w) => Moved(s, w, Busy(s.workers[w].fd, s.workers[w].pos)).(owner := Free)
    case HandlerReturns(w) => Moved(s, w, AtLock)
  }

  /** Whether a sequence of steps is a run from `s`, and where it ends. */
  predicate IsRun(s: Pool, steps: seq<Step>)
    decreases |steps|
  {
    steps == [] || (Enabled(s, steps[0]) && IsRun(Apply(s, steps[0]), steps[1..]))
  }

  function After(s: Pool, steps: seq<Step>): Pool
    requires IsRun(s, steps)
    decreases |steps|
  {
    if steps == [] then s else After(Apply(s, steps[0]), steps[1..])
  }

  // ---------- the invariant ----------

  predicate HoldsMutex(x: Worker) {
    x.Holding? || x.Leaving? || x.Ready? || x.Peeked? || x.Popped?
  }

  predicate MainHoldsMutex(m: Main) {
    m.Pushing? || m.Signalling? || m.UnlockPush? || m.SettingExit? || m.Broadcasting? || m.UnlockExit?
  }

  /** Mutual exclusion: the owner is exactly the one thread inside a critical section. */
  ghost predicate MutexInv(s: Pool) {
    && (MainHoldsMutex(s.main) <==> s.owner == HeldBy(MainThread))
    && (forall w :: 0 <= w < |s.workers| ==> (HoldsMutex(s.workers[w]) <==> s.owner == HeldBy(WorkerThread(w))))
    && (s.owner.HeldBy? && s.owner.thread.WorkerThread? ==> s.owner.thread.index < |s.workers|)
  }

  /** Line 61 and line 62 of worker.c run only on a non-empty queue, and the
      descriptor read is the one popped. */
  ghost predicate PopInv(s: Pool) {
    forall w :: 0 <= w < |s.workers| ==>
      && (s.workers[w].Ready? ==> s.queue != [])
      && (s.workers[w].Peeked? ==> s.queue != [] && s.workers[w].fd == s.queue[0])
  }

  function Fds(taken: seq<Take>): seq<int> {
    seq(|taken|, i requires 0 <= i < |taken| => taken[i].fd)
  }

  predicate HasTask(x: Worker) { x.Popped? || x.Busy? }

  /** What was pushed is what was taken followed by what is queued, in order, and
      a worker with a task holds the push position that it popped itself. */
  ghost predicate HistoryInv(s: Pool) {
    && s.pushed == Fds(s.taken) + s.queue
    && (forall w :: 0 <= w < |s.workers| && HasTask(s.workers[w]) ==>
         s.workers[w].pos < |s.taken| && s.taken[s.workers[w].pos] == Take(w, s.workers[w].fd))
  }

  /** Awake and on the way to a pop: wants the mutex, or holds it short of popping. */
  predicate Awake(x: Worker) {
    x.AtLock? || x.Signalled? || x.Holding? || x.Ready? || x.Peeked?
  }

  function CountAwake(workers: seq<Worker>): nat {
    if workers == [] then 0
    else CountAwake(workers[..|workers| - 1]) + (if Awake(workers[|workers| - 1]) then 1 else 0)
  }

  /** No lost wakeup: while somebody sleeps unsignalled, every queued task is
      matched by an awake worker, save the one between its push and its signal. */
  ghost predicate WakeupInv(s: Pool) {
    s.exitFlag == 0 && (exists w :: 0 <= w < |s.workers| && s.workers[w].Waiting?) ==>
      |s.queue| <= CountAwake(s.workers) + (if s.main.Signalling? then 1 else 0)
  }

  ghost predicate SpawnInv(s: Pool) {
    && (s.main.Spawning? ==> s.main.next <= |s.workers| && s.queue == [])
    && (forall w :: 0 <= w < |s.workers| ==>
         (s.workers[w].Unborn? <==> s.main.Spawning? && s.main.next <= w))
  }

  ghost predicate ExitInv(s: Pool) {
    && (s.exitFlag == 1 <==> s.main.Broadcasting? || s.main.UnlockExit? || s.main.Joining? || s.main.Returned?)
    && (s.exitFlag == 0 || s.exitFlag == 1)
    && (forall w :: 0 <= w < |s.workers| ==>
         && (s.exitFlag == 1 ==> !s.workers[w].Ready? && !s.workers[w].Peeked?)
         && (s.exitFlag == 1 && !s.main.Broadcasting? ==> !s.workers[w].Waiting?)
         && (s.exitFlag == 0 ==> !s.workers[w].Exited? && !s.workers[w].Leaving?)
         && (s.main.Joining? && w < s.main.next ==> s.workers[w].Exited?)
         && (s.main.Returned? ==> s.workers[w].Exited?))
    && (s.main.Joining? ==> s.main.next <= |s.workers|)
  }

  ghost predicate Inv(s: Pool) {
    MutexInv(s) && PopInv(s) && HistoryInv(s) && WakeupInv(s) && SpawnInv(s) && ExitInv(s)
  }

  // ---------- counting ----------

  lemma {:induction false} CountAwakeUpdate(workers: seq<Worker>, w: nat, x: Worker)
    requires w < |workers|
    ensures CountAwake(workers[w := x]) + (if Awake(workers[w]) then 1 else 0)
         == CountAwake(workers) + (if Awake(x) then 1 else 0)
  {
    var init := workers[..|workers| - 1];
    var updated := workers[w := x];
    if w == |workers| - 1 {
      assert updated[..|workers| - 1] == init;
    } else {
      assert updated[..|workers| - 1] == init[w := x];
      CountAwakeUpdate(init, w, x);
    }
  }

  /** Waking waiters raises the count, strictly if there is one to wake. */
  lemma {:induction false} CountAwakeWoken(workers: seq<Worker>, woken: set<nat>)
    ensures CountAwake(Woken(workers, woken)) >= CountAwake(workers)
    ensures (exists w :: 0 <= w < |workers| && w in woken && workers[w].Waiting?) ==>
              CountAwake(Woken(workers, woken)) > CountAwake(workers)
  {
    if workers != [] {
      var init := workers[..|workers| - 1];
      assert Woken(workers, woken)[..|workers| - 1] == Woken(init, woken);
      CountAwakeWoken(init, woken);
      if w :| 0 <= w < |workers| && w in woken && workers[w].Waiting? {
        assert w < |init| ==> init[w] == workers[w];
      }
    }
  }

  lemma {:induction false} SomeAwake(workers: seq<Worker>)
    requires CountAwake(workers) > 0
    ensures exists w :: 0 <= w < |workers| && Awake(workers[w])
  {
    var init := workers[..|workers| - 1];
    if !Awake(workers[|workers| - 1]) {
      SomeAwake(init);
      var w :| 0 <= w < |init| && Awake(init[w]);
      assert Awake(workers[w]);
    }
  }

  // ---------- every step keeps the invariant ----------

  lemma InitInv(n: nat)
    ensures Inv(Init(n))
  {
  }

  lemma MutexStep(s: Pool, step: Step)
    requires Inv(s) && Enabled(s, step)
    ensures MutexInv(Apply(s, step))
  {
    hide PopInv, HistoryInv, WakeupInv, ExitInv;
  }

  lemma PopStep(s: Pool, step: Step)
    requires Inv(s) && Enabled(s, step)
    ensures PopInv(Apply(s, step))
  {
    hide HistoryInv, WakeupInv, SpawnInv, Fds;
  }

  lemma HistoryStep(s: Pool, step: Step)
    requires Inv(s) && Enabled(s, step)
    ensures HistoryInv(Apply(s, step))
  {
    hide MutexInv, WakeupInv, SpawnInv, ExitInv;
    var s' := Apply(s, step);
    match step
    case Push =>
      assert s'.pushed == Fds(s'.taken) + s'.queue;
    case Pop(w) =>
      var fd := s.workers[w].fd;
      assert s.queue == [fd] + s'.queue;
      assert Fds(s'.taken) == Fds(s.taken) + [fd];
    case _ =>
  }

  lemma WakeupMainStep(s: Pool, step: Step)
    requires Inv(s) && Enabled(s, step) && OfMain(step)
    ensures WakeupInv(Apply(s, step))
  {
    hide MutexInv, HistoryInv, PopInv, Fds;
    match step
    case Spawn => if s.main.next < |s.workers| { CountAwakeUpdate(s.workers, s.main.next, AtLock); }
    case Signal(woken) => CountAwakeWoken(s.workers, woken);
    case _ =>
  }

  lemma WakeupWorkerStep(s: Pool, step: Step)
    requires Inv(s) && Enabled(s, step) && !OfMain(step)
    ensures WakeupInv(Apply(s, step))
  {
    hide MutexInv, HistoryInv, SpawnInv, Fds;
    var s' := Apply(s, step);
    match step
    case Lock(w) => CountAwakeUpdate(s.workers, w, Holding);
    case Wait(w) => CountAwakeUpdate(s.workers, w, Waiting);
    case WakeSpuriously(w) => CountAwakeUpdate(s.workers, w, Signalled);
    case SeeExit(w) => CountAwakeUpdate(s.workers, w, Leaving);
    case UnlockAndExit(w) => CountAwakeUpdate(s.workers, w, Exited);
    case SeeTask(w) => CountAwakeUpdate(s.workers, w, Ready);
    case Peek(w) => CountAwakeUpdate(s.workers, w, s'.workers[w]);
    case Pop(w) => CountAwakeUpdate(s.workers, w, s'.workers[w]);
    case UnlockWithTask(w) => CountAwakeUpdate(s.workers, w, s'.workers[w]);
    case HandlerReturns(w) => CountAwakeUpdate(s.workers, w, AtLock);
    case _ =>
  }

  lemma WakeupStep(s: Pool, step: Step)
    requires Inv(s) && Enabled(s, step)
    ensures WakeupInv(Apply(s, step))
  {
    if OfMain(step) { WakeupMainStep(s, step); } else { WakeupWorkerStep(s, step); }
  }

  lemma SpawnStep(s: Pool, step: Step)
    requires Inv(s) && Enabled(s, step)
    ensures SpawnInv(Apply(s, step))
  {
    hide HistoryInv, WakeupInv, Fds;
  }

  lemma ExitStep(s: Pool, step: Step)
    requires Inv(s) && Enabled(s, step)
    ensures ExitInv(Apply(s, step))
  {
    hide HistoryInv, WakeupInv, PopInv, Fds;
  }

  lemma StepKeepsInv(s: Pool, step: Step)
    requires Inv(s) && Enabled(s, step)
    ensures Inv(Apply(s, step))
  {
    MutexStep(s, step);
    PopStep(s, step);
    HistoryStep(s, step);
    WakeupStep(s, step);
    SpawnStep(s, step);
    ExitStep(s, step);
  }

  lemma {:induction false} RunKeepsInv(s: Pool, steps: seq<Step>)
    requires Inv(s) && IsRun(s, steps)
    ensures Inv(After(s, steps))
    decreases |steps|
  {
    if steps != [] {
      StepKeepsInv(s, steps[0]);
      RunKeepsInv(Apply(s, steps[0]), steps[1..]);
    }
  }

  // ---------- what holds in every reachable state ----------

  /** No lost wakeup, in every state that any number of workers can reach: while a
      worker sleeps unsignalled, no more tasks are queued than workers are awake for
      them, plus the one pushed but not yet signalled.  Hence a queued task with a
      sleeping worker beside it always leaves an enabled step that is neither a
      spurious wakeup nor a handler's return. */
  lemma NoLostWakeup(n: nat, steps: seq<Step>, sleeper: nat)
    requires IsRun(Init(n), steps)
    requires Is(After(Init(n), steps), sleeper, Waiting) && After(Init(n), steps).exitFlag == 0
    ensures var s := After(Init(n), steps);
            && |s.queue| <= CountAwake(s.workers) + (if s.main.Signalling? then 1 else 0)
            && (s.queue != [] ==>
                 exists step :: Enabled(s, step) && Internal(step))
  {
    InitInv(n);
    RunKeepsInv(Init(n), steps);
    var s := After(Init(n), steps);
    if s.queue != [] {
      if s.main.Signalling? {
        SignalPossible(s);
      } else {
        SomeAwake(s.workers);
        var w :| 0 <= w < |s.workers| && Awake(s.workers[w]);
        OwnerOrLockerCanMove(s, w);
      }
    }
  }

  lemma SignalPossible(s: Pool)
    requires s.main.Signalling?
    ensures exists woken: set<nat> :: Enabled(s, Signal(woken))
  {
    var all := AllWaiting(s.workers);
    if all == {} {
      assert forall w: nat | w < |s.workers| :: s.workers[w].Waiting? ==> w in all;
    }
    assert Enabled(s, Signal(all));
  }

  /** Whoever holds the mutex can step, and if nobody does a thread that wants it can. */
  lemma OwnerOrLockerCanMove(s: Pool, w: nat)
    requires Inv(s) && w < |s.workers| && Awake(s.workers[w])
    ensures exists step :: Enabled(s, step) && Internal(step)
  {
    if s.owner.Free? {
      assert Enabled(s, Lock(w));
    } else {
      HolderCanMove(s);
    }
  }

  lemma HolderCanMove(s: Pool)
    requires Inv(s) && s.owner.HeldBy?
    ensures exists step :: Enabled(s, step) && Internal(step)
  {
    match s.owner.thread
    case WorkerThread(i) => OwnerCanMove(s, i);
    case MainThread =>
      match s.main {
        case Pushing(_) => assert Enabled(s, Push);
        case Signalling => SignalPossible(s);
        case UnlockPush => assert Enabled(s, UnlockAfterPush);
        case SettingExit => assert Enabled(s, SetExit);
        case Broadcasting => assert Enabled(s, Broadcast);
        case UnlockExit => assert Enabled(s, UnlockAfterExit);
        case _ =>
      }
  }

  lemma OwnerCanMove(s: Pool, i: nat)
    requires Inv(s) && s.owner == HeldBy(WorkerThread(i))
    ensures exists step :: Enabled(s, step) && Internal(step)
  {
    match s.workers[i]
    case Holding =>
      if s.exitFlag == 0 && |s.queue| <= 0 {
        assert Enabled(s, Wait(i));
      } else if s.exitFlag == 1 {
        assert Enabled(s, SeeExit(i));
      } else {
        assert Enabled(s, SeeTask(i));
      }
    case Leaving => assert Enabled(s, UnlockAndExit(i));
    case Ready => assert Enabled(s, Peek(i));
    case Peeked(_) => assert Enabled(s, Pop(i));
    case Popped(_, _) => assert Enabled(s, UnlockWithTask(i));
    case _ =>
  }

  /** In every interleaving the head is read and popped with the mutex held by that
      worker alone, on a non-empty queue, and the pop removes what was read. */
  lemma PopsAreSafe(n: nat, steps: seq<Step>, w: nat)
    requires IsRun(Init(n), steps)
    requires Enabled(After(Init(n), steps), Peek(w)) || Enabled(After(Init(n), steps), Pop(w))
    ensures var s := After(Init(n), steps);
            && s.owner == HeldBy(WorkerThread(w))
            && s.queue != []
            && !MainHoldsMutex(s.main)
            && (forall v :: 0 <= v < |s.workers| && v != w ==> !HoldsMutex(s.workers[v]))
            && (s.workers[w].Peeked? ==> s.workers[w].fd == s.queue[0])
  {
    InitInv(n);
    RunKeepsInv(Init(n), steps);
  }

  /** Conservation and first-in-first-out order over whole runs.  The k-th pop takes
      the k-th push, and no push position is held by two workers. */
  lemma TasksTakenOnceInOrder(n: nat, steps: seq<Step>)
    requires IsRun(Init(n), steps)
    ensures var s := After(Init(n), steps);
            && s.pushed == Fds(s.taken) + s.queue
            && (forall w :: 0 <= w < |s.workers| && HasTask(s.workers[w]) ==>
                 s.workers[w].pos < |s.taken| && s.workers[w].fd == s.pushed[s.workers[w].pos])
            && (forall v, w :: 0 <= v < w < |s.workers| && HasTask(s.workers[v]) && HasTask(s.workers[w]) ==>
                 s.workers[v].pos != s.workers[w].pos)
  {
    InitInv(n);
    RunKeepsInv(Init(n), steps);
    var s := After(Init(n), steps);
    forall w | 0 <= w < |s.workers| && HasTask(s.workers[w])
      ensures s.workers[w].pos < |s.taken| && s.workers[w].fd == s.pushed[s.workers[w].pos]
    {
      assert Fds(s.taken)[s.workers[w].pos] == s.workers[w].fd;
    }
  }

  /** A push position, once taken, stays with the worker that took it. */
  lemma {:induction false} TakenOnlyGrows(s: Pool, steps: seq<Step>)
    requires IsRun(s, steps)
    ensures s.taken <= After(s, steps).taken && s.pushed <= After(s, steps).pushed
    decreases |steps|
  {
    if steps != [] {
      TakenOnlyGrows(Apply(s, steps[0]), steps[1..]);
    }
  }

  // ---------- from accept to handler ----------

  /** The descriptors that `accept` returned, in order; read off the steps alone. */
  function Accepted(steps: seq<Step>): seq<int> {
    if steps == [] then []
    else (if steps[0].Accept? then [steps[0].newFd] else []) + Accepted(steps[1..])
  }

  /** How often a handler has returned. */
  function Returns(steps: seq<Step>): nat {
    if steps == [] then 0 else (if steps[0].HandlerReturns? then 1 else 0) + Returns(steps[1..])
  }

  /** The descriptor that was accepted and is not yet pushed. */
  function InHand(m: Main): seq<int> { if m.WantPush? || m.Pushing? then [m.fd] else [] }

  lemma AcceptStep(s: Pool, step: Step)
    requires Enabled(s, step)
    ensures var s' := Apply(s, step);
            s'.pushed + InHand(s'.main) == s.pushed + InHand(s.main) + (if step.Accept? then [step.newFd] else [])
  {
  }

  lemma RunUnfolds(s: Pool, steps: seq<Step>)
    requires steps != [] && IsRun(s, steps)
    ensures Enabled(s, steps[0]) && IsRun(Apply(s, steps[0]), steps[1..])
    ensures After(s, steps) == After(Apply(s, steps[0]), steps[1..])
    ensures Accepted(steps) == (if steps[0].Accept? then [steps[0].newFd] else []) + Accepted(steps[1..])
    ensures Returns(steps) == (if steps[0].HandlerReturns? then 1 else 0) + Returns(steps[1..])
  {
    hide Enabled, Apply;
  }

  lemma NoSteps(s: Pool)
    ensures IsRun(s, []) && After(s, []) == s && Accepted([]) == [] && Returns([]) == 0
  {
  }

  /** What is pushed, and what main is about to push, are the accepted descriptors. */
  lemma {:induction false} AcceptedArePushed(s: Pool, steps: seq<Step>)
    requires IsRun(s, steps)
    ensures var s' := After(s, steps);
            s'.pushed + InHand(s'.main) == s.pushed + InHand(s.main) + Accepted(steps)
    decreases |steps|
  {
    hide Enabled, Apply, InHand, IsRun, After, Accepted;
    NoSteps(s);
    if steps != [] {
      RunUnfolds(s, steps);
      AcceptStep(s, steps[0]);
      AcceptedArePushed(Apply(s, steps[0]), steps[1..]);
    }
  }

  function CountTasks(workers: seq<Worker>): nat {
    if workers == [] then 0
    else CountTasks(workers[..|workers| - 1]) + (if HasTask(workers[|workers| - 1]) then 1 else 0)
  }

  lemma {:induction false} CountTasksUpdate(workers: seq<Worker>, w: nat, x: Worker)
    requires w < |workers|
    ensures CountTasks(workers[w := x]) + (if HasTask(workers[w]) then 1 else 0)
         == CountTasks(workers) + (if HasTask(x) then 1 else 0)
  {
    var init := workers[..|workers| - 1];
    if w == |workers| - 1 {
      assert workers[w := x][..|workers| - 1] == init;
    } else {
      assert workers[w := x][..|workers| - 1] == init[w := x];
      CountTasksUpdate(init, w, x);
    }
  }

  lemma {:induction false} CountTasksWoken(workers: seq<Worker>, woken: set<nat>)
    ensures CountTasks(Woken(workers, woken)) == CountTasks(workers)
  {
    if workers != [] {
      var init := workers[..|workers| - 1];
      assert Woken(workers, woken)[..|workers| - 1] == Woken(init, woken);
      CountTasksWoken(init, woken);
    }
  }

  lemma {:induction false} NoTasks(n: nat)
    ensures CountTasks(Init(n).workers) == 0
  {
    if n > 0 {
      assert Init(n).workers[..n - 1] == Init(n - 1).workers;
      NoTasks(n - 1);
    }
  }

  lemma TasksStep(s: Pool, step: Step)
    requires Inv(s) && Enabled(s, step)
    ensures var s' := Apply(s, step);
            |s'.taken| + CountTasks(s.workers) ==
            |s.taken| + CountTasks(s'.workers) + (if step.HandlerReturns? then 1 else 0)
  {
    hide CountTasks, Woken, MayWake, MutexInv, PopInv, HistoryInv, WakeupInv, ExitInv;
    var s' := Apply(s, step);
    match step
    case Spawn => if s.main.next < |s.workers| { CountTasksUpdate(s.workers, s.main.next, AtLock); }
    case Signal(woken) => CountTasksWoken(s.workers, woken);
    case Broadcast => CountTasksWoken(s.workers, AllWaiting(s.workers));
    case Lock(w) => CountTasksUpdate(s.workers, w, Holding);
    case Wait(w) => CountTasksUpdate(s.workers, w, Waiting);
    case WakeSpuriously(w) => CountTasksUpdate(s.workers, w, Signalled);
    case SeeExit(w) => CountTasksUpdate(s.workers, w, Leaving);
    case UnlockAndExit(w) => CountTasksUpdate(s.workers, w, Exited);
    case SeeTask(w) => CountTasksUpdate(s.workers, w, Ready);
    case Peek(w) => CountTasksUpdate(s.workers, w, s'.workers[w]);
    case Pop(w) => CountTasksUpdate(s.workers, w, s'.workers[w]);
    case UnlockWithTask(w) => CountTasksUpdate(s.workers, w, s'.workers[w]);
    case HandlerReturns(w) => CountTasksUpdate(s.workers, w, AtLock);
    case _ =>
  }

  /** Every task that was taken is in its worker's hands, or its handler has returned. */
  lemma {:induction false} TakenAreHandled(s: Pool, steps: seq<Step>)
    requires Inv(s) && IsRun(s, steps)
    ensures var s' := After(s, steps);
            |s'.taken| + CountTasks(s.workers) == |s.taken| + CountTasks(s'.workers) + Returns(steps)
    decreases |steps|
  {
    hide Inv, Enabled, Apply, CountTasks, IsRun, After, Returns;
    NoSteps(s);
    if steps != [] {
      RunUnfolds(s, steps);
      StepKeepsInv(s, steps[0]);
      TasksStep(s, steps[0]);
      TakenAreHandled(Apply(s, steps[0]), steps[1..]);
    }
  }

  /** Clients are served as they are accepted, over whole runs: what has been pushed is
      what `accept` returned, less its last descriptor exactly while main wants to push or
      is pushing it; the k-th task taken, and the one a worker at position k has, is the
      k-th client accepted. */
  lemma ClientsServedInOrder(n: nat, steps: seq<Step>)
    requires IsRun(Init(n), steps)
    ensures var s, accepted := After(Init(n), steps), Accepted(steps);
            && (if s.main.WantPush? || s.main.Pushing?
                then accepted == s.pushed + [s.main.fd] else accepted == s.pushed)
            && |s.taken| <= |accepted|
            && (forall k :: 0 <= k < |s.taken| ==> s.taken[k].fd == accepted[k])
            && (forall w :: 0 <= w < |s.workers| && HasTask(s.workers[w]) ==>
                 s.workers[w].pos < |accepted| && s.workers[w].fd == accepted[s.workers[w].pos])
  {
    hide IsRun, After, Accepted;
    AcceptedArePushed(Init(n), steps);
    TasksTakenOnceInOrder(n, steps);
    var s := After(Init(n), steps);
    assert forall k :: 0 <= k < |s.taken| ==> Fds(s.taken)[k] == s.taken[k].fd;
    assert Accepted(steps) == s.pushed + InHand(s.main);
  }

  /** And no client is lost: each one accepted is in main's hand, queued, with a worker, or
      its handler has returned. */
  lemma NoClientIsLost(n: nat, steps: seq<Step>)
    requires IsRun(Init(n), steps)
    ensures var s := After(Init(n), steps);
            |Accepted(steps)| == |InHand(s.main)| + |s.queue| + CountTasks(s.workers) + Returns(steps)
  {
    hide IsRun, After, Accepted, CountTasks, Returns, InHand, Inv;
    InitInv(n);
    AcceptedArePushed(Init(n), steps);
    TasksTakenOnceInOrder(n, steps);
    TakenAreHandled(Init(n), steps);
    NoTasks(n);
    NothingInHand(n);
  }

  lemma NothingInHand(n: nat)
    ensures InHand(Init(n).main) == []
  {
  }

  // ---------- tasks are taken up ----------

  /** How far a worker is from its next rest, in `handleClient`, in a wait or exited. */
  function Effort(x: Worker): nat {
    match x
    case Unborn => 8
    case AtLock => 7
    case Signalled => 7
    case Holding => 6
    case Ready => 5
    case Peeked(_) => 4
    case Popped(_, _) => 3
    case Leaving => 1
    case _ => 0
  }

  function SumEffort(workers: seq<Worker>): nat {
    if workers == [] then 0 else SumEffort(workers[..|workers| - 1]) + Effort(workers[|workers| - 1])
  }

  /** And the main thread, which may wake every worker on its way. */
  function MainEffort(m: Main, n: nat): nat {
    match m
    case Spawning(k) => if k <= n then n - k + 1 else 0
    case WantPush(_) => 8 * n + 4
    case Pushing(_) => 8 * n + 3
    case Signalling => 8 * n + 2
    case UnlockPush => 1
    case WantExit => 9 * n + 6
    case SettingExit => 9 * n + 5
    case Broadcasting => 9 * n + 4
    case UnlockExit => n + 3
    case Joining(j) => if j <= n then n - j + 1 else 0
    case _ => 0
  }

  function TotalEffort(s: Pool): nat { SumEffort(s.workers) + MainEffort(s.main, |s.workers|) }

  lemma {:induction false} SumEffortUpdate(workers: seq<Worker>, w: nat, x: Worker)
    requires w < |workers|
    ensures SumEffort(workers[w := x]) + Effort(workers[w]) == SumEffort(workers) + Effort(x)
  {
    var init := workers[..|workers| - 1];
    if w == |workers| - 1 {
      assert workers[w := x][..|workers| - 1] == init;
    } else {
      assert workers[w := x][..|workers| - 1] == init[w := x];
      SumEffortUpdate(init, w, x);
    }
  }

  lemma {:induction false} SumEffortWoken(workers: seq<Worker>, woken: set<nat>)
    ensures SumEffort(Woken(workers, woken)) <= SumEffort(workers) + 7 * |workers|
  {
    if workers != [] {
      var init := workers[..|workers| - 1];
      assert Woken(workers, woken)[..|workers| - 1] == Woken(init, woken);
      SumEffortWoken(init, woken);
    }
  }

  lemma LessEffort(s: Pool, w: nat, x: Worker, main: Main)
    requires w < |s.workers| && Effort(x) < Effort(s.workers[w])
    requires MainEffort(main, |s.workers|) <= MainEffort(s.main, |s.workers|)
    ensures SumEffort(s.workers[w := x]) + MainEffort(main, |s.workers|) < TotalEffort(s)
  {
    SumEffortUpdate(s.workers, w, x);
  }

  lemma InternalMainStep(s: Pool, step: Step)
    requires Inv(s) && Enabled(s, step) && Internal(step) && OfMain(step)
    ensures TotalEffort(Apply(s, step)) < TotalEffort(s)
  {
    hide MutexInv, HistoryInv, WakeupInv, PopInv, SumEffort, Woken;
    match step
    case Spawn => if s.main.next < |s.workers| { LessEffort(s, s.main.next, AtLock, Spawning(s.main.next + 1)); }
    case Signal(woken) => SumEffortWoken(s.workers, woken);
    case Broadcast => SumEffortWoken(s.workers, AllWaiting(s.workers));
    case _ =>
  }

  lemma InternalWorkerStep(s: Pool, step: Step)
    requires Enabled(s, step) && Internal(step) && !OfMain(step)
    ensures TotalEffort(Apply(s, step)) < TotalEffort(s)
  {
    hide SumEffort, MainEffort, Head;
    match step
    case Lock(w) => LessEffort(s, w, Holding, s.main);
    case Wait(w) => LessEffort(s, w, Waiting, s.main);
    case SeeExit(w) => LessEffort(s, w, Leaving, s.main);
    case UnlockAndExit(w) => LessEffort(s, w, Exited, s.main);
    case SeeTask(w) => LessEffort(s, w, Ready, s.main);
    case Peek(w) => LessEffort(s, w, Peeked(Head(s.queue)), s.main);
    case Pop(w) => LessEffort(s, w, Popped(s.workers[w].fd, |s.taken|), s.main);
    case UnlockWithTask(w) => LessEffort(s, w, Busy(s.workers[w].fd, s.workers[w].pos), s.main);
    case _ =>
  }

  /** Every internal step lowers the effort that is left. */
  lemma InternalStep(s: Pool, step: Step)
    requires Inv(s) && Enabled(s, step) && Internal(step)
    ensures TotalEffort(Apply(s, step)) < TotalEffort(s)
  {
    if OfMain(step) { InternalMainStep(s, step); } else { InternalWorkerStep(s, step); }
  }

  lemma {:induction false} InternalRunIsBounded(s: Pool, steps: seq<Step>)
    requires Inv(s) && IsRun(s, steps) && forall step | step in steps :: Internal(step)
    ensures |steps| + TotalEffort(After(s, steps)) <= TotalEffort(s)
    decreases |steps|
  {
    hide Inv, Enabled, Apply, TotalEffort, Internal;
    if steps != [] {
      FirstStep(s, steps);
      assert steps[0] in steps;
      InternalStep(s, steps[0]);
      StepKeepsInv(s, steps[0]);
      InternalRunIsBounded(Apply(s, steps[0]), steps[1..]);
    }
  }

  lemma FirstStep(s: Pool, steps: seq<Step>)
    requires IsRun(s, steps) && steps != []
    ensures Enabled(s, steps[0]) && IsRun(Apply(s, steps[0]), steps[1..])
  {
  }

  /** A pool at rest before any exit: main waits for events, and either nothing is queued or
      every worker is inside a handler. */
  lemma AtRest(s: Pool)
    requires Inv(s) && s.exitFlag == 0 && forall step :: Enabled(s, step) ==> !Internal(step)
    ensures s.main.Idle? && forall fd :: Enabled(s, Accept(fd))
    ensures s.queue == [] || forall w :: 0 <= w < |s.workers| ==> s.workers[w].Busy?
  {
    NobodyOwns(s);
    MainIsIdle(s);
    forall w | 0 <= w < |s.workers| && s.queue != []
      ensures s.workers[w].Busy?
    {
      NobodyAwake(s, w);
      if s.workers[w].Waiting? {
        assert |s.queue| <= CountAwake(s.workers);
        SomeAwake(s.workers);
        var v :| 0 <= v < |s.workers| && Awake(s.workers[v]);
        NobodyAwake(s, v);
      }
    }
  }

  lemma NobodyOwns(s: Pool)
    requires Inv(s) && forall step :: Enabled(s, step) ==> !Internal(step)
    ensures s.owner.Free?
  {
    if s.owner.HeldBy? { HolderCanMove(s); }
  }

  lemma MainIsIdle(s: Pool)
    requires Inv(s) && s.exitFlag == 0 && s.owner.Free? && forall step :: Enabled(s, step) ==> !Internal(step)
    ensures s.main.Idle?
  {
    hide HistoryInv, WakeupInv, PopInv;
    assert s.main.Spawning? ==> Enabled(s, Spawn);
    assert s.main.WantPush? ==> Enabled(s, LockPush);
    assert s.main.WantExit? ==> Enabled(s, LockExit);
  }

  lemma NobodyAwake(s: Pool, w: nat)
    requires Inv(s) && s.exitFlag == 0 && s.owner.Free? && w < |s.workers| && s.main.Idle?
    requires forall step :: Enabled(s, step) ==> !Internal(step)
    ensures s.workers[w].Waiting? || s.workers[w].Busy?
  {
    hide HistoryInv, WakeupInv, PopInv;
    assert s.workers[w].AtLock? || s.workers[w].Signalled? ==> Enabled(s, Lock(w));
  }

  /** What the pool does not decide for itself can always happen: an idle main accepts any
      descriptor or takes the exit, a waiter may wake at any time, a handler may return. */
  lemma OutsideSteps(s: Pool, fd: int, w: nat)
    requires w < |s.workers|
    ensures Enabled(s, Accept(fd)) <==> s.main.Idle?
    ensures Enabled(s, ExitEvent) <==> s.main.Idle?
    ensures Enabled(s, WakeSpuriously(w)) <==> s.workers[w].Waiting?
    ensures Enabled(s, HandlerReturns(w)) <==> s.workers[w].Busy?
  {
  }

  /** Tasks are taken up: from every reachable state, steps that wait for nothing outside the
      pool come to an end, and when they have, before any exit, nothing is left in the queue
      unless every worker is busy with another task; and main then accepts any client. */
  lemma TasksAreTakenUp(n: nat, before: seq<Step>, steps: seq<Step>)
    requires IsRun(Init(n), before) && IsRun(After(Init(n), before), steps)
    requires forall step | step in steps :: Internal(step)
    ensures var s := After(Init(n), before); var s' := After(s, steps);
            && |steps| <= TotalEffort(s)
            && (s'.exitFlag == 0 && (forall step :: Enabled(s', step) ==> !Internal(step)) ==>
                 && s'.main.Idle? && (forall fd :: Enabled(s', Accept(fd)))
                 && (s'.queue == [] || forall w :: 0 <= w < |s'.workers| ==> s'.workers[w].Busy?))
  {
    hide Inv, Enabled, Apply, IsRun, After, TotalEffort, Internal;
    InitInv(n);
    RunKeepsInv(Init(n), before);
    var s := After(Init(n), before);
    RunKeepsInv(s, steps);
    InternalRunIsBounded(s, steps);
    var s' := After(s, steps);
    if s'.exitFlag == 0 && (forall step :: Enabled(s', step) ==> !Internal(step)) {
      AtRest(s');
    }
  }

  // ---------- shutdown ----------

  /** How far a worker still is from the end of its thread once the flag is set. */
  function Rank(x: Worker): nat {
    match x
    case Popped(_, _) => 5
    case Busy(_, _) => 4
    case Waiting => 4
    case AtLock => 3
    case Signalled => 3
    case Holding => 2
    case Leaving => 1
    case _ => 0
  }

  function SumRank(workers: seq<Worker>): nat {
    if workers == [] then 0 else SumRank(workers[..|workers| - 1]) + Rank(workers[|workers| - 1])
  }

  function MainRank(m: Main, n: nat): nat {
    match m
    case Broadcasting => n + 4
    case UnlockExit => n + 3
    case Joining(j) => if j <= n then n - j + 1 else 0
    case _ => 0
  }

  function Measure(s: Pool): nat { SumRank(s.workers) + MainRank(s.main, |s.workers|) }

  lemma {:induction false} SumRankUpdate(workers: seq<Worker>, w: nat, x: Worker)
    requires w < |workers|
    ensures SumRank(workers[w := x]) + Rank(workers[w]) == SumRank(workers) + Rank(x)
  {
    var init := workers[..|workers| - 1];
    if w == |workers| - 1 {
      assert workers[w := x][..|workers| - 1] == init;
    } else {
      assert workers[w := x][..|workers| - 1] == init[w := x];
      SumRankUpdate(init, w, x);
    }
  }

  lemma {:induction false} SumRankWoken(workers: seq<Worker>, woken: set<nat>)
    ensures SumRank(Woken(workers, woken)) <= SumRank(workers)
  {
    if workers != [] {
      var init := workers[..|workers| - 1];
      assert Woken(workers, woken)[..|workers| - 1] == Woken(init, woken);
      SumRankWoken(init, woken);
    }
  }

  /** Once the flag is set nothing is pushed or popped. */
  lemma ShutdownQuiet(s: Pool, step: Step)
    requires Inv(s) && s.exitFlag == 1 && Enabled(s, step)
    ensures var s' := Apply(s, step);
            s'.exitFlag == 1 && s'.queue == s.queue && s'.pushed == s.pushed && s'.taken == s.taken
  {
  }

  /** A step that moves one worker down in rank lowers the measure. */
  lemma MovedDown(s: Pool, w: nat, x: Worker, owner: Owner)
    requires w < |s.workers| && Rank(x) < Rank(s.workers[w])
    ensures Measure(Moved(s, w, x).(owner := owner)) < Measure(s)
    ensures Measure(Moved(s, w, x)) < Measure(s)
  {
    SumRankUpdate(s.workers, w, x);
  }

  /** Once the flag is set every step of every thread lowers the measure. */
  lemma ShutdownStep(s: Pool, step: Step)
    requires Inv(s) && s.exitFlag == 1 && Enabled(s, step)
    ensures Measure(Apply(s, step)) < Measure(s)
  {
    match step
    case Broadcast => SumRankWoken(s.workers, AllWaiting(s.workers));
    case Lock(w) => MovedDown(s, w, Holding, HeldBy(WorkerThread(w)));
    case WakeSpuriously(w) => MovedDown(s, w, Signalled, s.owner);
    case SeeExit(w) => MovedDown(s, w, Leaving, s.owner);
    case UnlockAndExit(w) => MovedDown(s, w, Exited, Free);
    case UnlockWithTask(w) => MovedDown(s, w, Busy(s.workers[w].fd, s.workers[w].pos), Free);
    case HandlerReturns(w) => MovedDown(s, w, AtLock, s.owner);
    case _ =>
  }

  /** After the flag is set no run is longer than the measure; nothing more is pushed,
      popped or handled, whatever is still queued. */
  lemma {:induction false} ShutdownIsBounded(s: Pool, steps: seq<Step>)
    requires Inv(s) && s.exitFlag == 1 && IsRun(s, steps)
    ensures var s' := After(s, steps);
            && |steps| + Measure(s') <= Measure(s)
            && s'.exitFlag == 1
            && s'.queue == s.queue && s'.pushed == s.pushed && s'.taken == s.taken
    decreases |steps|
  {
    if steps != [] {
      ShutdownStep(s, steps[0]);
      ShutdownQuiet(s, steps[0]);
      StepKeepsInv(s, steps[0]);
      ShutdownIsBounded(Apply(s, steps[0]), steps[1..]);
    }
  }

  /** Until main returns, a step is enabled; if only handler returns are, then main
      is joining a worker that is inside `handleClient`. */
  lemma ShutdownProgress(s: Pool)
    requires Inv(s) && s.exitFlag == 1 && !s.main.Returned?
    ensures || (exists step :: Enabled(s, step) && !step.HandlerReturns?)
            || (s.main.Joining? && s.main.next < |s.workers| && s.workers[s.main.next].Busy?
                && Enabled(s, HandlerReturns(s.main.next)))
  {
    match s.main
    case Broadcasting => assert Enabled(s, Broadcast);
    case UnlockExit => assert Enabled(s, UnlockAfterExit);
    case Joining(j) =>
      if j == |s.workers| || s.workers[j].Exited? {
        assert Enabled(s, Join);
      } else if s.owner.HeldBy? {
        OwnerCanMove(s, s.owner.thread.index);
      } else if !s.workers[j].Busy? {
        assert Enabled(s, Lock(j));
      }
    case _ =>
  }

  /** Shutdown as a whole: take any reachable state with the flag set.  Once the
      broadcast is done nobody waits; every continuation is at most `Measure` steps
      long; and one that cannot be continued has main returned and every worker
      exited, with the tasks left in the queue untouched. */
  lemma ShutdownCompletes(n: nat, before: seq<Step>, steps: seq<Step>)
    requires IsRun(Init(n), before) && After(Init(n), before).exitFlag == 1
    requires IsRun(After(Init(n), before), steps)
    ensures var s := After(Init(n), before); var s' := After(s, steps);
            && |steps| <= Measure(s)
            && s'.queue == s.queue && s'.taken == s.taken
            && (!s'.main.Broadcasting? ==> forall w :: 0 <= w < |s'.workers| ==> !s'.workers[w].Waiting?)
            && (s'.main.Returned? ==> forall w :: 0 <= w < |s'.workers| ==> s'.workers[w].Exited?)
            && ((forall step :: !Enabled(s', step)) ==> s'.main.Returned?)
  {
    InitInv(n);
    RunKeepsInv(Init(n), before);
    var s := After(Init(n), before);
    RunKeepsInv(s, steps);
    ShutdownIsBounded(s, steps);
    if !After(s, steps).main.Returned? {
      ShutdownProgress(After(s, steps));
    }
  }

  /** Main has been told to exit. */
  predicate Closing(m: Main) {
    m.WantExit? || m.SettingExit? || m.Broadcasting? || m.UnlockExit? || m.Joining? || m.Returned?
  }

  lemma {:induction false} ExitIsHeeded(s: Pool, steps: seq<Step>)
    requires IsRun(s, steps)
    ensures Closing(After(s, steps).main) <==> Closing(s.main) || ExitEvent in steps
    decreases |steps|
  {
    hide IsRun, After;
    NoSteps(s);
    if steps != [] {
      RunUnfolds(s, steps);
      ExitIsHeeded(Apply(s, steps[0]), steps[1..]);
      assert ExitEvent in steps <==> steps[0] == ExitEvent || ExitEvent in steps[1..];
    }
  }

  lemma ClosingComesToRest(s: Pool)
    requires Inv(s) && Closing(s.main) && forall step :: Enabled(s, step) ==> !Internal(step)
    ensures s.exitFlag == 1 && (s.main.Returned? || s.main.Joining?)
    ensures s.main.Joining? ==> s.main.next < |s.workers| && s.workers[s.main.next].Busy?
  {
    NobodyOwns(s);
    assert s.main.WantExit? ==> Enabled(s, LockExit);
    if s.main.Joining? {
      assert Enabled(s, Join) ==> Internal(Join);
      JoinedIsBusy(s, s.main.next);
    }
  }

  lemma JoinedIsBusy(s: Pool, w: nat)
    requires Inv(s) && s.main == Joining(w) && s.owner.Free? && w < |s.workers| && !s.workers[w].Exited?
    requires forall step :: Enabled(s, step) ==> !Internal(step)
    ensures s.workers[w].Busy?
  {
    hide HistoryInv, WakeupInv, PopInv;
    assert s.workers[w].AtLock? || s.workers[w].Signalled? ==> Enabled(s, Lock(w));
  }

  /** The exit event, and nothing else, brings the shutdown about.  Without one the flag
      stays clear.  After one, the steps that wait for nothing outside come to an end, and
      then the flag is set and main has returned, unless it is joining a worker that is
      still inside its handler; and a run that cannot go on at all has main returned and
      every worker exited. */
  lemma ExitBringsShutdown(n: nat, before: seq<Step>, steps: seq<Step>)
    requires IsRun(Init(n), before) && IsRun(After(Init(n), before), steps)
    requires forall step | step in steps :: Internal(step)
    ensures var s := After(Init(n), before); var s' := After(s, steps);
            && |steps| <= TotalEffort(s)
            && (ExitEvent !in before ==> s'.exitFlag == 0 && !s'.main.Returned?)
            && (ExitEvent in before && (forall step :: Enabled(s', step) ==> !Internal(step)) ==>
                 && s'.exitFlag == 1
                 && (if s'.main.Returned? then forall w :: 0 <= w < |s'.workers| ==> s'.workers[w].Exited?
                     else s'.main.Joining? && s'.main.next < |s'.workers| && s'.workers[s'.main.next].Busy?))
            && (ExitEvent in before && (forall step :: !Enabled(s', step)) ==> s'.main.Returned?)
  {
    hide Enabled, Apply, IsRun, After, TotalEffort, Internal, MutexInv, PopInv, HistoryInv, WakeupInv, SpawnInv;
    InitInv(n);
    RunKeepsInv(Init(n), before);
    var s := After(Init(n), before);
    RunKeepsInv(s, steps);
    InternalRunIsBounded(s, steps);
    ExitIsHeeded(Init(n), before);
    ExitIsHeeded(s, steps);
    NoExitInside(steps);
    var s' := After(s, steps);
    if ExitEvent in before && (forall step :: Enabled(s', step) ==> !Internal(step)) {
      ClosingComesToRest(s');
      if s'.main.Joining? { BusyCanReturn(s', s'.main.next); }
    }
  }

  lemma NoExitInside(steps: seq<Step>)
    requires forall step | step in steps :: Internal(step)
    ensures ExitEvent !in steps
  {
  }

  lemma BusyCanReturn(s: Pool, w: nat)
    requires w < |s.workers| && s.workers[w].Busy?
    ensures Enabled(s, HandlerReturns(w))
  {
  }
}
