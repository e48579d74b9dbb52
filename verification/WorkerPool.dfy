/** The pool as the object the threads share: the linked queue in place of the
    abstract one, updated by the statements of worker.c and server.c.  Where the workers
    stand and what has been pushed and taken is for the proofs only. */
module WorkerPool {
  import opened ThreadPool
  import TaskQueue

  class SharedPool {
    const workerNum_: nat
    ghost var workers: seq<Worker>
    var main: Main
    var mutex_: Owner
    var exitFlag_: int
    const ptaskQueue_: TaskQueue.TaskQueue
    ghost var pushed: seq<int>
    ghost var taken: seq<Take>

    ghost function View(): Pool
      reads this, ptaskQueue_, ptaskQueue_.nodes
    {
      Pool(workers, main, mutex_, exitFlag_, ptaskQueue_.Contents(), pushed, taken)
    }

    ghost predicate Valid()
      reads this, ptaskQueue_, ptaskQueue_.nodes
    {
      ptaskQueue_.Valid() && |workers| == workerNum_
    }

    /** threadPoolInit */
    constructor (numThreads: nat)
      ensures Valid() && View() == Init(numThreads)
      ensures fresh(ptaskQueue_) && ptaskQueue_.nodes == []
    {
      workerNum_ := numThreads;
      workers := seq(numThreads, i => Unborn);
      main, mutex_, exitFlag_ := Spawning(0), Free, 0;
      ptaskQueue_ := new TaskQueue.TaskQueue();
      pushed, taken := [], [];
    }

    /** server.c line 85, between lock and signal. */
    method PushTask(garbage: TaskQueue.Node?)
      requires Valid() && Enabled(View(), Push)
      modifies this, ptaskQueue_, ptaskQueue_.nodes
      ensures Valid() && View() == Apply(old(View()), Push)
      ensures forall i | 0 <= i < |ptaskQueue_.nodes| ::
                ptaskQueue_.nodes[i] in old(ptaskQueue_.nodes) || fresh(ptaskQueue_.nodes[i])
    {
      pushed := pushed + [main.fd];
      ptaskQueue_.Push(main.fd, garbage);
      main := Signalling;
    }

    /** worker.c lines 49-54: wait, leave or go on to the task. */
    method TestCondition(w: nat) returns (step: Step)
      requires Valid() && Is(View(), w, Holding)
      modifies this
      ensures Valid() && step in {Wait(w), SeeExit(w), SeeTask(w)}
      ensures old(Enabled(View(), step)) && View() == Apply(old(View()), step)
    {
      if exitFlag_ == 0 && ptaskQueue_.queueSize_ <= 0 {
        step := Wait(w);
        workers, mutex_ := workers[w := Waiting], Free;
      } else if exitFlag_ == 1 {
        step := SeeExit(w);
        workers := workers[w := Leaving];
      } else {
        step := SeeTask(w);
        workers := workers[w := Ready];
      }
    }

    /** worker.c line 61: the invariant supplies the non-empty queue it relies on. */
    method PeekTask(w: nat)
      requires Valid() && Inv(View()) && Enabled(View(), Peek(w))
      modifies this
      ensures Valid() && View() == Apply(old(View()), Peek(w))
    {
      var clientFd := ptaskQueue_.HeadFd();
      workers := workers[w := Peeked(clientFd)];
    }

    /** worker.c line 62 */
    method PopTask(w: nat)
      requires Valid() && Enabled(View(), ThreadPool.Pop(w))
      modifies this, ptaskQueue_, ptaskQueue_.nodes
      ensures Valid() && View() == Apply(old(View()), ThreadPool.Pop(w))
      ensures forall i | 0 <= i < |ptaskQueue_.nodes| :: ptaskQueue_.nodes[i] in old(ptaskQueue_.nodes)
    {
      hide Inv;
      ghost var fd, pos := workers[w].fd, |taken|;
      workers := workers[w := Popped(fd, pos)];
      taken := taken + [Take(w, fd)];
      var ret := ptaskQueue_.Pop();
    }

    /** Any other step of the main thread moves program counters, the mutex or the flag. */
    method SynchroniseMain(step: Step)
      requires Valid() && Enabled(View(), step) && OfMain(step) && !step.Push?
      modifies this
      ensures Valid() && View() == Apply(old(View()), step)
    {
      match step
      case Spawn =>
        if main.next < workerNum_ {
          workers, main := workers[main.next := AtLock], Spawning(main.next + 1);
        } else {
          main := Idle;
        }
      case Accept(fd) => main := WantPush(fd);
      case LockPush => main, mutex_ := Pushing(main.fd), HeldBy(MainThread);
      case Signal(woken) => main, workers := UnlockPush, Woken(workers, woken);
      case UnlockAfterPush => main, mutex_ := Idle, Free;
      case ExitEvent => main := WantExit;
      case LockExit => main, mutex_ := SettingExit, HeldBy(MainThread);
      case SetExit => main, exitFlag_ := Broadcasting, 1;
      case Broadcast => main, workers := UnlockExit, Woken(workers, AllWaiting(workers));
      case UnlockAfterExit => main, mutex_ := Joining(0), Free;
      case Join => main := if main.next < workerNum_ then Joining(main.next + 1) else Returned;
    }

    /** Likewise for a worker. */
    method SynchroniseWorker(step: Step)
      requires Valid() && Enabled(View(), step) && !OfMain(step)
      requires !step.Peek? && !step.Pop? && !step.Wait? && !step.SeeExit? && !step.SeeTask?
      modifies this
      ensures Valid() && View() == Apply(old(View()), step)
    {
      match step
      case Lock(w) => workers, mutex_ := workers[w := Holding], HeldBy(WorkerThread(w));
      case WakeSpuriously(w) => workers := workers[w := Signalled];
      case UnlockAndExit(w) => workers, mutex_ := workers[w := Exited], Free;
      case UnlockWithTask(w) => workers, mutex_ := workers[w := Busy(workers[w].fd, workers[w].pos)], Free;
      case HandlerReturns(w) => workers := workers[w := AtLock];
    }

    /** Any enabled step of any thread, run on the linked queue. */
    method Execute(step: Step, garbage: TaskQueue.Node?)
      requires Valid() && Inv(View()) && Enabled(View(), step)
      modifies this, ptaskQueue_, ptaskQueue_.nodes
      ensures Valid() && View() == Apply(old(View()), step)
      ensures forall i | 0 <= i < |ptaskQueue_.nodes| ::
                ptaskQueue_.nodes[i] in old(ptaskQueue_.nodes) || fresh(ptaskQueue_.nodes[i])
      // the descriptor accepted is the one pushed
      ensures step.Accept? ==> main == WantPush(step.newFd)
      ensures step.LockPush? ==> old(main.WantPush?) && main == Pushing(old(main.fd))
      ensures step.Push? ==>
                old(main.Pushing?) && ptaskQueue_.Contents() == old(ptaskQueue_.Contents()) + [old(main.fd)]
    {
      if step.Push? {
        PushTask(garbage);
      } else if OfMain(step) {
        SynchroniseMain(step);
      } else if step.Wait? || step.SeeExit? || step.SeeTask? {
        var _ := TestCondition(step.w);
      } else if step.Peek? {
        PeekTask(step.w);
      } else if step.Pop? {
        PopTask(step.w);
      } else {
        SynchroniseWorker(step);
      }
    }

    /** Any interleaving of the threads, run on the linked queue with arbitrary
        garbage in the link of every new node, is the same run of the step system; and what
        it has pushed is what the steps have accepted. */
    method Interleave(steps: seq<Step>, garbage: seq<TaskQueue.Node?>)
      requires Valid() && Inv(View()) && IsRun(View(), steps) && |garbage| == |steps|
      modifies this, ptaskQueue_, ptaskQueue_.nodes
      ensures Valid() && View() == After(old(View()), steps)
      ensures pushed + InHand(main) == old(pushed + InHand(main)) + Accepted(steps)
      decreases |steps|
    {
      AcceptedArePushed(View(), steps);
      if steps != [] {
        StepKeepsInv(View(), steps[0]);
        Execute(steps[0], garbage[0]);
        Interleave(steps[1..], garbage[1..]);
      }
    }
  }
}
