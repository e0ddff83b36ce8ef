/** What holds in every run of the pool: after any sequence of calls by the owner and
    steps by the worker threads, in any interleaving. */
module PoolTheorems {
  import opened Basics
  import opened PoolModel
  import opened PoolCounting
  import opened Tallies
  import opened PoolInvariant
  import opened PoolLedger
  import opened PoolWakeup
  import opened PoolDeletion

  ghost predicate Inv(s: State) {
    Machine(s) && Ledger(s) && Wakeful(s) && Deletion(s)
  }

  lemma InvNext(s: State, step: Step)
    requires Inv(s) && Enabled(s, step)
    ensures Inv(Next(s, step))
  {
    MachineNext(s, step);
    LedgerNext(s, step);
    WakefulNext(s, step);
    DeletionNext(s, step);
  }

  lemma FreshInv(t: State, n: nat)
    requires Fresh(t, n) && 1 <= n <= INT_MAX
    ensures Inv(t)
  {
    FreshMachine(t, n);
    FreshLedger(t, n);
    NewWorkersAt(1, n);
  }

  /** Every reachable state satisfies the invariant. */
  lemma {:induction false} RunInv(n: nat, steps: seq<Step>)
    requires After(n, steps).Some?
    ensures Inv(After(n, steps).value)
  {
    if steps == [] {
      InitFresh(n);
      FreshInv(Init(n), n);
    } else {
      RunInv(n, steps[..|steps|-1]);
      InvNext(After(n, steps[..|steps|-1]).value, steps[|steps|-1]);
    }
  }

  // -------------------------------------------------------------------- wake-ups

  /** The places in Entry() between WorkingThread() and WaitingThread(). */
  predicate Working(w: Worker) { Is(w, InSection) }

  /** The semaphore holds a token, a worker of any generation is between WorkingThread() and
      WaitingThread(), or one of the current generation is awake before WorkingThread(). */
  ghost predicate SomeoneWillLook(s: State) {
    && s.semaphores != []
    && (|| s.semaphores[s.Current()].value > 0
        || (exists i :: 0 <= i < |s.workers| && Working(s.workers[i]))
        || (exists i :: 0 <= i < |s.workers| && s.workers[i].generation == s.Current()
                        && s.workers[i].pc in {LoopTest, AbortTest, CallWorking}))
  }

  /** While tasks are queued and the pool is not batching, someone will look for them. */
  lemma NoLostWakeup(n: nat, steps: seq<Step>)
    requires After(n, steps).Some?
    requires After(n, steps).value.queue != [] && !After(n, steps).value.batching
    ensures SomeoneWillLook(After(n, steps).value)
  {
    RunInv(n, steps);
    var s := After(n, steps).value;
    if s.semaphores[s.Current()].value == 0 {
      if s.workingThreads > 0 {
        var i := CountWitness(s.workers, InSection);
        assert Working(s.workers[i]);
      } else {
        var i := CountWitness(s.workers, Awake(s.Current()));
      }
    }
  }

  /** No worker can take a step. */
  ghost predicate AtRest(s: State) {
    forall i: nat :: !CanStep(s, i)
  }

  lemma RestingWorkers(s: State)
    requires Machine(s) && AtRest(s)
    ensures s.workingThreads == 0 && Count(s.workers, Awake(s.Current())) == 0
    ensures s.semaphores[s.Current()].value == 0
    ensures forall i :: 0 <= i < |s.workers| ==>
              s.workers[i].pc == if s.workers[i].generation == s.Current() then AtWait else Destroyed
  {
    forall i | 0 <= i < |s.workers|
      ensures s.workers[i].pc == if s.workers[i].generation == s.Current() then AtWait else Destroyed
    {
      assert !CanStep(s, i);
      assert Sane(s.workers[i], s.Current());
      if s.workers[i].pc == AtWait && s.workers[i].generation < s.Current() {
        CountSome(s.workers, i, Waiting(s.workers[i].generation));
      }
    }
    if Count(s.workers, InSection) > 0 { var i := CountWitness(s.workers, InSection); }
    if Count(s.workers, Awake(s.Current())) > 0 { var i := CountWitness(s.workers, Awake(s.Current())); }
    assert !CanStep(s, |s.workers| - 1);
  }

  /** When the pool comes to rest outside batch mode, nothing is left over: the queue is
      empty, no thread-count change is pending, every task added has been finished and
      every execution reported, all replaced threads are gone, and ALLDONE has been sent
      for everything that was ever handed to a worker. */
  lemma RestMeansDone(n: nat, steps: seq<Step>)
    requires After(n, steps).Some?
    requires AtRest(After(n, steps).value) && !After(n, steps).value.batching
    ensures var s := After(n, steps).value;
      && s.queue == [] && s.schedule == 0 && s.workingThreads == 0
      && Settled(s.log)
      && !FetchedSince(s.log)
      && forall i :: 0 <= i < |s.workers| ==>
           s.workers[i].pc == if s.workers[i].generation == s.Current() then AtWait else Destroyed
  {
    RunInv(n, steps);
    var s := After(n, steps).value;
    RestingWorkers(s);
    IdleIsSettled(s);
  }

  /** A pool of one thread without tasks. */
  function Solo(pc: Pc, working: bool, count: nat): State {
    State(1, 0, count, false, false, [], [0], [Worker(1, false, pc, working, None, None)],
          [Semaphore(0, 0, 0), Semaphore(0, 1, 2)], {}, {}, {}, [])
  }

  lemma SoloInit()
    ensures Init(1) == Solo(LoopTest, false, 0)
  {
    InitFresh(1);
    var t := Init(1);
    assert NewWorkers(1, 1) == [NewWorker(1)];
    assert Range(0, 1) == [0];
    assert t.entrusted == {};
  }

  /** A run goes on by one possible step. */
  lemma Then(n: nat, steps: seq<Step>, s: State, step: Step) returns (more: seq<Step>)
    requires After(n, steps) == Some(s) && Enabled(s, step)
    ensures After(n, more) == Some(Next(s, step)) && more == steps + [step]
  {
    more := steps + [step];
    assert more[..|steps|] == steps;
  }

  /** The only thread starts, finds nothing to do and goes to sleep. */
  lemma SoloSleeps(s: State, steps: seq<Step>) returns (more: seq<Step>)
    requires After(1, steps) == Some(s)
    requires s in {Solo(LoopTest, false, 0), Solo(AbortTest, false, 0), Solo(CallWorking, false, 0),
                   Solo(Fetch, true, 1), Solo(Publish, true, 1), Solo(LoopTest, true, 1), Solo(CallWaiting, false, 1),
                   Solo(AtWait, false, 0)}
    ensures After(1, more) == Some(Solo(AtWait, false, 0))
    decreases match s.workers[0].pc
              case LoopTest => if s.workers[0].working then 2 else 7
              case AbortTest => 6
              case CallWorking => 5
              case Fetch => 4
              case Publish => 3
              case CallWaiting => 1
              case _ => 0
  {
    if s.workers[0].pc == AtWait { return steps; }
    more := Then(1, steps, s, Run(0));
    SoloNext(s);
    more := SoloSleeps(Next(s, Run(0)), more);
  }

  lemma SoloNext(s: State)
    requires s in {Solo(LoopTest, false, 0), Solo(AbortTest, false, 0), Solo(CallWorking, false, 0),
                   Solo(Fetch, true, 1), Solo(Publish, true, 1), Solo(LoopTest, true, 1), Solo(CallWaiting, false, 1)}
    ensures CanStep(s, 0)
    ensures WorkerStep(s, 0) == match s.workers[0].pc
              case LoopTest => if s.workers[0].working then Solo(CallWaiting, false, 1) else Solo(AbortTest, false, 0)
              case AbortTest => Solo(CallWorking, false, 0)
              case CallWorking => Solo(Fetch, true, 1)
              case Fetch => Solo(Publish, true, 1)
              case Publish => Solo(LoopTest, true, 1)
              case _ => Solo(AtWait, false, 0)
  {
  }

  /** The one way to be owed an ALLDONE event at rest: every task since the last one was
      discarded before a worker fetched any. Such runs exist. */
  lemma AllDoneCanBeOwed()
    ensures exists steps :: (After(1, steps).Some? && AtRest(After(1, steps).value)
                             && !After(1, steps).value.batching && After(1, steps).value.taskAdded)
  {
    SoloInit();
    var s0 := Solo(AtWait, false, 0);
    var steps := SoloSleeps(Init(1), []);
    steps := Then(1, steps, s0, Begin);
    steps := Then(1, steps, BatchBegin(s0), Add(Some(7), true));
    var s2 := AddTask(BatchBegin(s0), Some(7), true);
    steps := Then(1, steps, s2, AbortAll);
    steps := Then(1, steps, AbortAllTasks(s2), End);
    OwedAtRest();
  }

  lemma OwedAtRest()
    ensures var s := BatchEnd(AbortAllTasks(AddTask(BatchBegin(Solo(AtWait, false, 0)), Some(7), true)));
      AtRest(s) && !s.batching && s.taskAdded
  {
  }

  // ----------------------------------------------------------------------- tasks

  /** Conservation: each task added is, at every moment, in exactly one of five places. */
  lemma TaskConservation(n: nat, steps: seq<Step>, t: TaskId)
    requires After(n, steps).Some? && Added(t) in After(n, steps).value.log
    ensures var s := After(n, steps).value;
      Queued(s.queue, t) + Count(s.workers, Holds(t)) + Occ(s.log, Executed(t)) + Occ(s.log, Dropped(t))
        + Occ(s.log, Discarded(t)) == 1
  {
    RunInv(n, steps);
    assert InOnePlace(After(n, steps).value, t);
  }

  /** Tasks leave the queue in the order in which they were added. */
  lemma FirstInFirstOut(n: nat, steps: seq<Step>)
    requires After(n, steps).Some?
    ensures var s := After(n, steps).value;
      AddedTasks(s.log) == TakenTasks(s.log) + Tasks(s.queue)
  {
    RunInv(n, steps);
  }

  /** A task is deleted by the pool exactly when it was handed over with autodelete and
      has been executed or discarded, so never while it can still be executed. A dropped
      task is never deleted. */
  lemma DeletionExact(n: nat, steps: seq<Step>, t: TaskId)
    requires After(n, steps).Some?
    ensures var s := After(n, steps).value;
      && (t in s.deleted <==> t in s.entrusted && (Released(t) in s.log || Discarded(t) in s.log))
      && (t in s.deleted ==> Queued(s.queue, t) == Count(s.workers, Holds(t)) == Occ(s.log, Dropped(t)) == 0)
  {
    RunInv(n, steps);
    var s := After(n, steps).value;
    assert InOnePlace(s, t);
    if t in s.deleted {
      assert Released(t) in s.log ==> Occ(s.log, Released(t)) > 0;
      assert Discarded(t) in s.log ==> Occ(s.log, Discarded(t)) > 0;
    }
  }

  /** Whatever AbortTask() reaches through a thread's m_pTask still exists. */
  lemma AbortTouchesLiveTasks(n: nat, steps: seq<Step>)
    requires After(n, steps).Some?
    ensures var s := After(n, steps).value;
      forall i :: 0 <= i < |s.workers| && s.workers[i].task.Some? ==> s.workers[i].task.value !in s.deleted
  {
    RunInv(n, steps);
    var s := After(n, steps).value;
    forall i | 0 <= i < |s.workers| && s.workers[i].task.Some? ensures s.workers[i].task.value !in s.deleted {
      var t := s.workers[i].task.value;
      assert InOnePlace(s, t);
      assert Sane(s.workers[i], s.Current());
      assert Released(t) in s.log ==> Occ(s.log, Released(t)) > 0;
      assert Discarded(t) in s.log ==> Occ(s.log, Discarded(t)) > 0;
      if s.workers[i].pc == Clear { CountSome(s.workers, i, Clearing(t)); }
      else if s.workers[i].pc in {RunTest, Execute} { CountSome(s.workers, i, Holds(t)); }
      else { assert Occ(s.log, Dropped(t)) > 0; }
    }
  }

  /** Only a thread of a replaced generation ever drops a task, and such a thread never
      executes one. */
  lemma DropsAndExecutions(n: nat, steps: seq<Step>, i: nat)
    requires After(n, steps).Some? && CanStep(After(n, steps).value, i)
    ensures var s := After(n, steps).value;
      var t := WorkerStep(s, i);
      && (t.log != s.log && t.log[|t.log|-1].Dropped? ==> s.workers[i].generation < s.Current())
      && (t.log != s.log && t.log[|t.log|-1].Executed? ==> s.workers[i].generation == s.Current())
  {
    RunInv(n, steps);
    var s := After(n, steps).value;
    assert Sane(s.workers[i], s.Current());
    if s.workers[i].pc in {CallWaiting, Leaving} { WaitingLog(s, i); }
  }

  lemma WaitingLog(s: State, i: nat)
    requires Machine(s) && CanStep(s, i) && s.workers[i].pc in {CallWaiting, Leaving}
    ensures WorkerStep(s, i).log == s.log || WorkerStep(s, i).log == s.log + [AllDone]
  {
  }

  // --------------------------------------------------------------------- ALLDONE

  /** Every ALLDONE event in every run is sound: at that moment each task added so far had
      been executed, dropped or discarded, exactly once, and every execution had been
      reported with an ENDED event; and some task was added since the previous ALLDONE. */
  lemma AllDoneSound(n: nat, steps: seq<Step>, k: nat)
    requires After(n, steps).Some?
    requires k < |After(n, steps).value.log| && After(n, steps).value.log[k] == AllDone
    ensures var log := After(n, steps).value.log[..k];
      && (forall t: TaskId :: Added(t) in log ==> Finished(log, t) == 1)
      && NumExecuted(log) == Occ(log, Ended)
      && exists j :: 0 <= j < k && log[j].Added? && forall m :: j < m < k ==> log[m] != AllDone
  {
    RunInv(n, steps);
    var s := After(n, steps).value;
    var log := s.log[..k];
    forall t: TaskId | Added(t) in log ensures Finished(log, t) == 1 {
      assert InOnePlace(s, t);
      OccPrefix(s.log, k, Added(t));
      assert Occ(log, Added(t)) > 0;
    }
    var j := AddedSinceAt(log);
  }

  lemma OccPrefix(log: seq<Event>, k: nat, e: Event)
    requires k <= |log|
    ensures Occ(log[..k], e) <= Occ(log, e)
  {
    assert log == log[..k] + log[k..];
  }

  lemma {:induction false} AddedSinceAt(log: seq<Event>) returns (j: nat)
    requires AddedSince(log)
    ensures j < |log| && log[j].Added? && forall m :: j < m < |log| ==> log[m] != AllDone
  {
    if log[|log|-1].Added? { j := |log|-1; } else { j := AddedSinceAt(log[..|log|-1]); }
  }

  // -------------------------------------------------------------------- counters

  /** m_workingThreads is the number of threads in the working section, of whatever
      generation; so Done() is exact, and the counter is never negative. */
  lemma CountersExact(n: nat, steps: seq<Step>)
    requires After(n, steps).Some?
    ensures var s := After(n, steps).value;
      && s.workingThreads == Count(s.workers, InSection) >= 0
      && (s.workingThreads == 0 <==> forall i :: 0 <= i < |s.workers| ==> !Working(s.workers[i]))
      && |s.threads| == s.concurrent
      && (forall i: nat :: i in s.threads <==> i < |s.workers| && !s.workers[i].aborted)
  {
    RunInv(n, steps);
    var s := After(n, steps).value;
    if s.workingThreads == 0 {
      forall i | 0 <= i < |s.workers| ensures !Working(s.workers[i]) { IdleWorker(s, i); }
    } else {
      var i := CountWitness(s.workers, InSection);
      assert Working(s.workers[i]);
    }
    forall i: nat ensures i in s.threads <==> i < |s.workers| && !s.workers[i].aborted {
      if i < |s.workers| { assert Sane(s.workers[i], s.Current()); }
    }
  }

  /** Two threads, both past the abort test, while the pool is told to use one thread. */
  lemma PairReady() returns (steps: seq<Step>, s: State)
    ensures After(2, steps) == Some(s) && s.concurrent == 2 && s.workingThreads == 0 && s.semaphores != []
    ensures |s.workers| == 2 && s.workers[0].pc == s.workers[1].pc == CallWorking
    ensures s.workers[0].generation == s.workers[1].generation == s.Current()
    ensures s.queue == [] && s.log == []
  {
    InitFresh(2);
    NewWorkersAt(1, 2);
    s := Init(2);
    steps := Then(2, [], s, Run(0));
    s := Next(s, Run(0));
    steps := Then(2, steps, s, Run(1));
    s := Next(s, Run(1));
    steps := Then(2, steps, s, Run(0));
    s := Next(s, Run(0));
    steps := Then(2, steps, s, Run(1));
    s := Next(s, Run(1));
  }

  /** The count asked for last, by the constructor or by SetConcurrentThreads. */
  function LastRequest(n: nat, steps: seq<Step>): nat {
    if steps == [] then n
    else if steps[|steps|-1].Set? then steps[|steps|-1].n
    else LastRequest(n, steps[..|steps|-1])
  }

  lemma SettleKeepsRequest(s: State)
    requires s.semaphores != []
    ensures Settle(s).GetConcurrentThreads() == s.GetConcurrentThreads()
  {
  }

  lemma StepKeepsRequest(s: State, i: nat)
    requires CanStep(s, i)
    ensures WorkerStep(s, i).GetConcurrentThreads() == s.GetConcurrentThreads()
  {
    hide Broadcast, Announced, PostCurrent, AbortThreads, NewWorkers, DropOwner;
    if Departing(s, i) {
      SettleKeepsRequest(Departed(s, i));
    }
  }

  /** GetConcurrentThreads() answers the last requested count, applied or still pending. */
  lemma {:induction false} LastRequestReported(n: nat, steps: seq<Step>)
    requires After(n, steps).Some?
    ensures After(n, steps).value.GetConcurrentThreads() == LastRequest(n, steps)
  {
    if steps == [] {
      InitFresh(n);
    } else {
      var last := steps[|steps|-1];
      LastRequestReported(n, steps[..|steps|-1]);
      if last.Run? { StepKeepsRequest(After(n, steps[..|steps|-1]).value, last.worker); }
    }
  }

  // ------------------------------------------------- replacing a worker generation

  /** How many steps a thread that has been told to abort has left, at most. */
  function StepsLeft(w: Worker): nat {
    match w.pc
    case CallWorking => 8
    case Fetch => 7
    case Publish => 6
    case AtWait => 5
    case RunTest => 5
    case LoopTest => 4
    case AbortTest => 4
    case Leaving => 3
    case Exited => 2
    case Destroyed => 0
    case _ => 9
  }

  /** A replaced thread is never blocked, and each of its steps brings it closer to its
      end: it is gone after at most 8 steps of its own. */
  lemma ReplacedThreadLeaves(n: nat, steps: seq<Step>, i: nat)
    requires After(n, steps).Some? && i < |After(n, steps).value.workers|
    requires After(n, steps).value.workers[i].aborted && After(n, steps).value.workers[i].pc != Destroyed
    ensures var s := After(n, steps).value;
      && CanStep(s, i)
      && i < |WorkerStep(s, i).workers| && WorkerStep(s, i).workers[i].aborted
      && StepsLeft(WorkerStep(s, i).workers[i]) < StepsLeft(s.workers[i]) <= 8
      && WorkerStep(s, i).workers[i].pc != AtWait
  {
    RunInv(n, steps);
    ReplacedStep(After(n, steps).value, i);
  }

  lemma ReplacedStep(s: State, i: nat)
    requires Machine(s) && i < |s.workers| && s.workers[i].aborted && s.workers[i].pc != Destroyed
    ensures CanStep(s, i)
    ensures i < |WorkerStep(s, i).workers| && WorkerStep(s, i).workers[i].aborted
    ensures StepsLeft(WorkerStep(s, i).workers[i]) < StepsLeft(s.workers[i]) <= 8
    ensures WorkerStep(s, i).workers[i].pc != AtWait
  {
    assert SaneAt(s, i);
    if s.workers[i].pc == AtWait { CountSome(s.workers, i, Waiting(s.workers[i].generation)); }
    if Departing(s, i) { SettleOthers(Departed(s, i), i); } else { PlainReplacedStep(s, i); }
  }

  lemma PlainReplacedStep(s: State, i: nat)
    requires CanStep(s, i) && SaneAt(s, i) && s.workers[i].aborted && !Departing(s, i)
    ensures i < |WorkerStep(s, i).workers| && WorkerStep(s, i).workers[i].aborted
    ensures StepsLeft(WorkerStep(s, i).workers[i]) < StepsLeft(s.workers[i]) <= 8
    ensures WorkerStep(s, i).workers[i].pc != AtWait
  {
  }

  lemma SettleOthers(s: State, i: nat)
    requires s.semaphores != [] && i < |s.workers| && s.workers[i].aborted
    ensures i < |Settle(s).workers| && Settle(s).workers[i] == s.workers[i]
  {
  }

  lemma OtherWorker(s: State, i: nat, j: nat)
    requires CanStep(s, j) && i < |s.workers| && s.workers[i].aborted && i != j
    ensures i < |WorkerStep(s, j).workers| && WorkerStep(s, j).workers[i] == s.workers[i]
  {
    if Departing(s, j) { OtherDeparts(s, i, j); } else { OtherMoves(s, i, j); }
  }

  lemma OtherDeparts(s: State, i: nat, j: nat)
    requires CanStep(s, j) && i < |s.workers| && s.workers[i].aborted && i != j && Departing(s, j)
    ensures i < |WorkerStep(s, j).workers| && WorkerStep(s, j).workers[i] == s.workers[i]
  {
    hide AbortThreads, NewWorkers, PostMany, DropOwner;
    var d := Departed(s, j);
    assert d.workers[i] == s.workers[i];
    SettleOthers(d, i);
  }

  lemma OtherMoves(s: State, i: nat, j: nat)
    requires CanStep(s, j) && i < |s.workers| && i != j && !Departing(s, j)
    ensures i < |WorkerStep(s, j).workers| && WorkerStep(s, j).workers[i] == s.workers[i]
  {
  }

  /** Nothing that anyone else does moves a replaced thread. */
  lemma OthersKeep(n: nat, steps: seq<Step>, step: Step, i: nat)
    requires After(n, steps).Some? && i < |After(n, steps).value.workers|
    requires After(n, steps).value.workers[i].aborted
    requires Enabled(After(n, steps).value, step) && step != Run(i)
    ensures var s := After(n, steps).value;
      i < |Next(s, step).workers| && Next(s, step).workers[i] == s.workers[i]
  {
    RunInv(n, steps);
    if step.Run? { OtherWorker(After(n, steps).value, i, step.worker); }
  }

  // ------------------------------------------------------------ reference counting

  /** A semaphore has an owner exactly as long as it is the pool's or one of its threads
      still exists, so it is freed after its last user and whoever waits or posts uses a
      semaphore that is not freed. */
  lemma SemaphoresFreedAfterLastUser(n: nat, steps: seq<Step>, g: nat)
    requires After(n, steps).Some? && g < |After(n, steps).value.semaphores|
    ensures var s := After(n, steps).value;
      && s.semaphores[g].owners == Count(s.workers, Owning(g)) + One(g == s.Current())
      && (s.semaphores[g].owners == 0 <==>
            && g < s.Current()
            && forall i :: 0 <= i < |s.workers| && s.workers[i].generation == g ==>
                 s.workers[i].pc == Destroyed)
  {
    RunInv(n, steps);
    var s := After(n, steps).value;
    if Count(s.workers, Owning(g)) > 0 {
      var i := CountWitness(s.workers, Owning(g));
    }
    if s.semaphores[g].owners == 0 {
      forall i | 0 <= i < |s.workers| && s.workers[i].generation == g ensures s.workers[i].pc == Destroyed {
        if s.workers[i].pc != Destroyed { CountSome(s.workers, i, Owning(g)); }
      }
    }
  }

  /** A freed semaphore stays freed and is not touched any more. */
  lemma FreedStaysFreed(n: nat, steps: seq<Step>, step: Step, g: nat)
    requires After(n, steps).Some? && g < |After(n, steps).value.semaphores|
    requires After(n, steps).value.semaphores[g].owners == 0
    requires Enabled(After(n, steps).value, step)
    ensures var t := Next(After(n, steps).value, step);
      g < |t.semaphores| && t.semaphores[g] == After(n, steps).value.semaphores[g]
  {
    SemaphoresFreedAfterLastUser(n, steps, g);
    RunInv(n, steps);
    var s := After(n, steps).value;
    if step.Run? { WorkerUsesOwn(s, step.worker, g); }
    else if step.Set? && s.workingThreads == 0 { ReplaceShape(s, step.n); }
  }

  lemma WorkerUsesOwn(s: State, i: nat, g: nat)
    requires Machine(s) && CanStep(s, i) && g < s.Current() && s.semaphores[g].owners == 0
    requires s.workers[i].generation == g ==> s.workers[i].pc == Destroyed
    ensures g < |WorkerStep(s, i).semaphores| && WorkerStep(s, i).semaphores[g] == s.semaphores[g]
  {
    hide AbortThreads, NewWorkers, PostMany, Count;
    if Departing(s, i) {
      Departs(s, i);
      SettleSemaphores(Departed(s, i), g);
    }
  }

  lemma SettleSemaphores(s: State, g: nat)
    requires Machine(s) && g < s.Current()
    ensures g < |Settle(s).semaphores| && Settle(s).semaphores[g] == s.semaphores[g]
  {
    if s.workingThreads <= 0 && s.queue == [] && s.schedule != 0 {
      assert Machine(Announced(s));
      ReplaceShape(Announced(s), s.schedule);
    }
  }
}
