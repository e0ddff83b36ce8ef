/** What AbortAllTasks and Abort() reach and what they miss, with runs that show it. */
module PoolAborts {
  import opened Basics
  import opened PoolModel
  import opened PoolCounting
  import opened Tallies
  import opened PoolInvariant
  import opened PoolLedger
  import opened PoolTheorems

  // --------------------------------------------------------------- who has been told

  /** The task was added, is out of the queue, and no worker has yet to publish it. */
  ghost predicate Behind(s: State, x: TaskId) {
    && Added(x) in s.log
    && (forall k :: 0 <= k < |s.queue| ==> s.queue[k].task != x)
    && (forall i :: 0 <= i < |s.workers| && s.workers[i].pc == Publish && s.workers[i].element.Some?
          ==> s.workers[i].element.value.task != x)
  }

  /** Abort() has only been called on tasks that had been published. */
  ghost predicate ToldBehind(s: State) {
    forall x :: x in s.told ==> Behind(s, x)
  }

  lemma PublishedBehind(s: State, i: nat, x: TaskId)
    requires Machine(s) && Ledger(s) && i < |s.workers| && s.workers[i].task == Some(x)
    ensures Behind(s, x)
  {
    var w := s.workers[i];
    assert Sane(w, s.Current());
    assert InOnePlace(s, x);
    if w.pc == Clear {
      CountSome(s.workers, i, Clearing(x));
    } else if w.pc in {RunTest, Execute} {
      CountSome(s.workers, i, Holds(x));
    } else {
      assert Occ(s.log, Dropped(x)) > 0;
    }
    assert Occ(s.log, Added(x)) > 0;
    NeverQueued(s.queue, x);
    forall j | 0 <= j < |s.workers| && s.workers[j].pc == Publish && s.workers[j].element.Some?
      ensures s.workers[j].element.value.task != x
    {
      if s.workers[j].element.value.task == x { PublishesAlone(s, i, j, x); }
    }
  }

  /** A worker that has yet to publish x has it to itself. */
  lemma PublishesAlone(s: State, i: nat, j: nat, x: TaskId)
    requires Machine(s) && Ledger(s) && i < |s.workers| && j < |s.workers|
    requires s.workers[j].pc == Publish && s.workers[j].element.Some? && s.workers[j].element.value.task == x
    ensures s.workers[i].task != Some(x)
  {
    assert Sane(s.workers[i], s.Current()) && Sane(s.workers[j], s.Current());
    assert InOnePlace(s, x);
    CountSome(s.workers, j, Holds(x));
    var w := s.workers[i];
    assert w.task == Some(x) && w.pc !in {RunTest, Execute, Clear} ==> Occ(s.log, Dropped(x)) > 0;
    if w.task == Some(x) && w.pc == Clear { CountSome(s.workers, i, Clearing(x)); }
    if w.task == Some(x) && w.pc in {RunTest, Execute} {
      var other := s.workers[j].(element := None);
      CountUpdate(s.workers, j, other, Holds(x));
      CountSome(s.workers[j := other], i, Holds(x));
    }
  }

  // ------------------------------------------------------------------ how steps keep it

  ghost predicate SomeTask(s: State, x: TaskId) {
    exists i :: 0 <= i < |s.workers| && s.workers[i].task == Some(x)
  }

  /** Only published tasks are told, new tasks are queued, and queued tasks are fetched. */
  ghost predicate Progress(s: State, t: State) {
    && (forall x :: x in t.told ==> x in s.told || SomeTask(s, x))
    && (forall x: TaskId :: Added(x) in s.log ==> Added(x) in t.log)
    && (forall k :: 0 <= k < |t.queue| ==> t.queue[k] in s.queue || Added(t.queue[k].task) !in s.log)
    && (forall i :: 0 <= i < |t.workers| && t.workers[i].pc == Publish && t.workers[i].element.Some?
          ==> t.workers[i].element.value in s.queue
              || (i < |s.workers| && s.workers[i].pc == Publish && s.workers[i].element == t.workers[i].element))
  }

  lemma ProgressKeeps(s: State, t: State)
    requires Machine(s) && Ledger(s) && ToldBehind(s) && Progress(s, t)
    ensures ToldBehind(t)
  {
    forall x | x in t.told ensures Behind(t, x) {
      if x !in s.told {
        var i :| 0 <= i < |s.workers| && s.workers[i].task == Some(x);
        PublishedBehind(s, i, x);
      }
      assert Behind(s, x);
    }
  }

  lemma PublishedAre(s: State)
    ensures forall x :: x in Published(s.workers, s.threads) ==> SomeTask(s, x)
  {
  }

  lemma ReplaceProgress(s: State, n: nat)
    requires s.semaphores != []
    ensures Progress(s, Replace(s, n))
  {
    var t := Replace(s, n);
    PublishedAre(s);
    NewWorkersAt(|t.semaphores| - 1, n);
    var made := NewWorkers(|t.semaphores| - 1, n);
    assert t.workers == AbortThreads(s.workers, s.threads) + made;
    assert forall i :: |s.workers| <= i < |t.workers| ==> t.workers[i] == made[i - |s.workers|];
  }

  lemma SettleProgress(s: State)
    requires s.semaphores != []
    ensures Progress(s, Settle(s))
  {
    if s.workingThreads <= 0 && s.queue == [] {
      var s1 := Announced(s);
      assert Progress(s, s1);
      if s1.schedule != 0 && s1.workingThreads == 0 {
        ReplaceProgress(s1, s1.schedule);
        assert forall x :: SomeTask(s1, x) ==> SomeTask(s, x);
      }
    }
  }

  /** Worker i moves on, and takes at most the first task of the queue. */
  lemma MovedProgress(s: State, t: State, i: nat)
    requires i < |s.workers| && i < |t.workers| && t.workers == s.workers[i := t.workers[i]] && t.told == s.told
    requires s.log <= t.log
    requires t.queue == s.queue || (s.queue != [] && t.queue == s.queue[1..])
    requires t.workers[i].pc == Publish ==>
      t.workers[i].element == if s.queue == [] then None else Some(s.queue[0])
    ensures Progress(s, t)
  {
    forall x: TaskId | Added(x) in s.log ensures Added(x) in t.log {
      var k :| 0 <= k < |s.log| && s.log[k] == Added(x);
      assert t.log[k] == Added(x);
    }
  }

  lemma FetchProgress(s: State, i: nat)
    requires CanStep(s, i) && s.workers[i].pc == Fetch
    ensures Progress(s, WorkerStep(s, i))
  {
    hide Progress;
    MovedProgress(s, WorkerStep(s, i), i);
  }

  lemma QuietProgress(s: State, i: nat)
    requires CanStep(s, i) && !Departing(s, i) && s.workers[i].pc != Fetch
    ensures Progress(s, WorkerStep(s, i))
  {
    hide Progress, GetNextTask, WaitingThread, DropOwner;
    MovedProgress(s, WorkerStep(s, i), i);
  }

  lemma DepartProgress(s: State, i: nat)
    requires Machine(s) && CanStep(s, i) && Departing(s, i)
    ensures Progress(s, WorkerStep(s, i))
  {
    var d := Departed(s, i);
    assert s.workers[i].pc != Publish && d.workers == s.workers[i := d.workers[i]];
    assert d.workers[i].task == s.workers[i].task && d.workers[i].pc != Publish;
    assert Progress(s, d);
    SettleProgress(d);
    SameTasks(s, d);
    var r := Settle(d);
    assert Progress(s, r);
    if s.workers[i].pc == CallWaiting && !WaitingThread(SetWorker(s, i, s.workers[i].(pc := AtWait))).1 {
      Refused(s, i);
      LeavingProgress(s, r, i);
    } else {
      WaitingIsSettle(s, i);
    }
  }

  lemma SameTasks(s: State, d: State)
    requires |d.workers| == |s.workers| && forall i :: 0 <= i < |s.workers| ==> d.workers[i].task == s.workers[i].task
    ensures forall x :: SomeTask(d, x) ==> SomeTask(s, x)
  {
  }

  lemma LeavingProgress(s: State, r: State, i: nat)
    requires Progress(s, r) && i < |r.workers| && r.workers[i].pc == AtWait
    ensures Progress(s, SetWorker(r, i, r.workers[i].(pc := Leaving)))
  {
  }

  lemma AbortProgress(s: State)
    ensures Progress(s, AbortAllTasks(s))
  {
    PublishedAre(s);
  }

  lemma OwnerProgress(s: State, step: Step)
    requires Enabled(s, step) && !step.Run?
    ensures Progress(s, Next(s, step))
  {
    match step
    case Set(n) => if n != s.concurrent && s.workingThreads == 0 { ReplaceProgress(s, n); }
    case AbortAll => AbortProgress(s);
    case _ =>
  }

  lemma StepProgress(s: State, step: Step)
    requires Machine(s) && Enabled(s, step)
    ensures Progress(s, Next(s, step))
  {
    hide Machine, Progress;
    if !step.Run? { OwnerProgress(s, step); }
    else if Departing(s, step.worker) { DepartProgress(s, step.worker); }
    else if s.workers[step.worker].pc == Fetch { FetchProgress(s, step.worker); }
    else { QuietProgress(s, step.worker); }
  }

  lemma {:induction false} ToldInRuns(n: nat, steps: seq<Step>)
    requires After(n, steps).Some?
    ensures ToldBehind(After(n, steps).value)
  {
    if steps == [] {
      InitFresh(n);
    } else {
      var before := steps[..|steps| - 1];
      ToldInRuns(n, before);
      RunInv(n, before);
      hide Machine, Ledger, Progress, ToldBehind;
      StepProgress(After(n, before).value, steps[|steps| - 1]);
      ProgressKeeps(After(n, before).value, After(n, steps).value);
    }
  }

  // --------------------------------------------------------------- what is reached

  /** AbortAllTasks() empties the queue, and of the tasks that current workers have fetched it
      calls Abort() on exactly the published ones: one still on its way to m_pTask is missed. */
  lemma AbortAllReach(n: nat, steps: seq<Step>, i: nat)
    requires After(n, steps).Some? && i < |After(n, steps).value.workers|
    requires After(n, steps).value.workers[i].generation == After(n, steps).value.Current()
    requires After(n, steps).value.workers[i].element.Some?
    ensures var s := After(n, steps).value;
      && AbortAllTasks(s).queue == []
      && (s.workers[i].element.value.task in AbortAllTasks(s).told <==> s.workers[i].pc != Publish)
  {
    var s := After(n, steps).value;
    var w := s.workers[i];
    var x := w.element.value.task;
    RunInv(n, steps);
    ToldInRuns(n, steps);
    assert Sane(w, s.Current());
    if w.pc != Publish {
      assert i in s.threads;
      assert x in Published(s.workers, s.threads);
    } else {
      assert x !in s.told;
      forall j | j in s.threads && j < |s.workers| ensures s.workers[j].task != Some(x) {
        PublishesAlone(s, j, i, x);
      }
    }
  }

  /** The tasks that the current workers have published. */
  ghost function PublishedNow(s: State): set<TaskId> {
    set i: nat | i < |s.workers| && s.workers[i].generation == s.Current() && s.workers[i].task.Some? ::
      s.workers[i].task.value
  }

  lemma PublishedIsNow(s: State)
    requires Machine(s)
    ensures Published(s.workers, s.threads) == PublishedNow(s)
    ensures s.workingThreads == 0 ==> PublishedNow(s) == {}
  {
    assert forall i: nat :: i in s.threads <==> i < |s.workers| && s.workers[i].generation == s.Current();
    if s.workingThreads == 0 {
      forall i: nat | i < |s.workers| && s.workers[i].generation == s.Current() ensures s.workers[i].task == None {
        IdleWorker(s, i);
        assert Sane(s.workers[i], s.Current());
      }
    }
  }

  lemma SettleTells(s: State)
    requires Machine(s)
    ensures Settle(s).told == s.told
  {
    var s1 := Announced(s);
    PublishedIsNow(s);
    hide AbortThreads, NewWorkers, PostMany, DropOwner, Machine;
  }

  lemma RunTells(s: State, i: nat)
    requires Machine(s) && CanStep(s, i)
    ensures WorkerStep(s, i).told == s.told
  {
    if Departing(s, i) {
      Departs(s, i);
      SettleTells(Departed(s, i));
      DepartTells(s, i);
    }
  }

  lemma DepartTells(s: State, i: nat)
    requires CanStep(s, i) && Departing(s, i)
    ensures WorkerStep(s, i).told == Settle(Departed(s, i)).told
  {
  }

  lemma StepTells(s: State, step: Step)
    requires Machine(s) && Enabled(s, step)
    ensures Next(s, step).told == s.told + if step.AbortAll? then PublishedNow(s) else {}
  {
    PublishedIsNow(s);
    if step.Run? { RunTells(s, step.worker); }
    hide WorkerStep, AbortThreads, NewWorkers, PostMany, DropOwner, Machine, PublishedNow;
  }

  /** Only AbortAllTasks() calls Abort() on tasks, and on exactly those that the current
      workers have published; replacing the workers reaches none. */
  lemma ToldExactly(n: nat, steps: seq<Step>, step: Step)
    requires After(n, steps).Some? && Enabled(After(n, steps).value, step)
    ensures var s := After(n, steps).value;
      Next(s, step).told == s.told + if step.AbortAll? then PublishedNow(s) else {}
  {
    RunInv(n, steps);
    hide Machine, Ledger, Next, PublishedNow;
    StepTells(After(n, steps).value, step);
  }

  /** A task that was dropped is never executed and never deleted. */
  lemma DroppedForGood(n: nat, steps: seq<Step>, x: TaskId)
    requires After(n, steps).Some? && Dropped(x) in After(n, steps).value.log
    ensures Executed(x) !in After(n, steps).value.log && x !in After(n, steps).value.deleted
  {
    var s := After(n, steps).value;
    RunInv(n, steps);
    assert InOnePlace(s, x) && Occ(s.log, Dropped(x)) > 0;
    if x in s.deleted { DeletionExact(n, steps, x); }
  }

  // --------------------------------------------------- a run that misses a running task

  /** A pool of one thread whose only task is task 7. */
  function Single(pc: Pc, queue: seq<Element>, element: Option<Element>, task: Option<TaskId>, log: seq<Event>): State {
    State(1, 0, 1, true, false, queue, [0], [Worker(1, false, pc, true, element, task)],
          [Semaphore(0, 0, 0), Semaphore(0, 1, 2)], {}, {7}, {}, log)
  }

  const TASK := Element(7, true)

  lemma SoloFetches() returns (steps: seq<Step>)
    ensures After(1, steps) == Some(Solo(Fetch, true, 1))
  {
    SoloInit();
    SoloNext(Solo(LoopTest, false, 0));
    SoloNext(Solo(AbortTest, false, 0));
    SoloNext(Solo(CallWorking, false, 0));
    steps := Then(1, [], Solo(LoopTest, false, 0), Run(0));
    steps := Then(1, steps, Solo(AbortTest, false, 0), Run(0));
    steps := Then(1, steps, Solo(CallWorking, false, 0), Run(0));
  }

  lemma SingleSteps()
    ensures AddTask(Solo(Fetch, true, 1), Some(7), true) == Single(Fetch, [TASK], None, None, [Added(7)])
    ensures var s := Single(Fetch, [TASK], None, None, [Added(7)]);
      CanStep(s, 0) && WorkerStep(s, 0) == Single(Publish, [], Some(TASK), None, [Added(7), Fetched(7)])
    ensures var s := Single(Publish, [], Some(TASK), None, [Added(7), Fetched(7)]);
      && AbortAllTasks(s) == s
      && CanStep(s, 0) && WorkerStep(s, 0) == Single(RunTest, [], Some(TASK), Some(7), [Added(7), Fetched(7)])
    ensures var s := Single(RunTest, [], Some(TASK), Some(7), [Added(7), Fetched(7)]);
      CanStep(s, 0) && WorkerStep(s, 0) == Single(Execute, [], Some(TASK), Some(7), [Added(7), Fetched(7)])
    ensures var s := Single(Execute, [], Some(TASK), Some(7), [Added(7), Fetched(7)]);
      CanStep(s, 0) && WorkerStep(s, 0) == Single(Clear, [], Some(TASK), Some(7), [Added(7), Fetched(7), Executed(7)])
  {
    var s := Single(Publish, [], Some(TASK), None, [Added(7), Fetched(7)]);
    assert Published(s.workers, s.threads) == {} && Autodeleted([]) == {} && DiscardEvents([]) == [];
  }

  lemma ThenStep(n: nat, steps: seq<Step>, s: State, step: Step)
    requires After(n, steps) == Some(s) && Enabled(s, step)
    ensures After(n, steps + [step]) == Some(Next(s, step))
  {
    assert (steps + [step])[..|steps|] == steps;
  }

  /** AbortAllTasks() comes when the task is fetched and not published: it is not told, and
      it is executed. */
  lemma MissedTaskIsExecuted()
    ensures exists steps, k: nat :: MissedAt(steps, k)
  {
    SingleSteps();
    var steps := SoloFetches();
    hide After, WorkerStep, AddTask, AbortAllTasks;
    var log := [Added(7), Fetched(7)];
    steps := Then(1, steps, Solo(Fetch, true, 1), Add(Some(7), true));
    steps := Then(1, steps, Single(Fetch, [TASK], None, None, [Added(7)]), Run(0));
    var called := steps + [AbortAll];
    ThenStep(1, steps, Single(Publish, [], Some(TASK), None, log), AbortAll);
    ThenStep(1, called, Single(Publish, [], Some(TASK), None, log), Run(0));
    ThenStep(1, called + [Run(0)], Single(RunTest, [], Some(TASK), Some(7), log), Run(0));
    ThenStep(1, called + [Run(0)] + [Run(0)], Single(Execute, [], Some(TASK), Some(7), log), Run(0));
    var all := called + [Run(0)] + [Run(0)] + [Run(0)];
    assert all[|steps|] == AbortAll && all[..|steps|] == steps;
    assert MissedAt(all, |steps|);
  }

  /** Call number k of the run is AbortAllTasks(); task 7 had been fetched by then, and is
      executed in the end without having been told to abort. */
  ghost predicate MissedAt(steps: seq<Step>, k: nat) {
    && k < |steps| && steps[k] == AbortAll
    && After(1, steps).Some? && After(1, steps[..k]).Some?
    && Fetched(7) in After(1, steps[..k]).value.log && Executed(7) !in After(1, steps[..k]).value.log
    && Executed(7) in After(1, steps).value.log && 7 !in After(1, steps).value.told
  }

  // ----------------------------------------------------------- a run that drops a task

  /** A worker of a replaced generation enters the working section, fetches the task and
      drops it: it is neither executed nor deleted, although the pool was to delete it. */
  lemma ReplacedWorkerDrops()
    ensures exists steps :: (After(2, steps).Some? && Dropped(7) in After(2, steps).value.log
                             && 7 in After(2, steps).value.entrusted && 7 !in After(2, steps).value.deleted
                             && Executed(7) !in After(2, steps).value.log)
  {
    var steps, s := PairReady();
    RunInv(2, steps);
    PairReplaced(s);
    hide After, Next, Inv;
    var t := Next(s, Set(1));
    steps := Then(2, steps, s, Set(1));
    EntersBeforeTask(t);
    steps := Then(2, steps, t, Run(0));
    var u := Next(t, Run(0));
    steps := Then(2, steps, u, Add(Some(7), true));
    steps := DropsNext(steps, Next(u, Add(Some(7), true)));
    DroppedForGood(2, steps, 7);
  }

  lemma PairReplaced(s: State)
    requires Machine(s) && s.workingThreads == 0 && s.concurrent == 2 && s.workers != [] && s.queue == [] && s.log == []
    requires s.workers[0].pc == CallWorking && s.workers[0].generation == s.Current()
    ensures Enabled(s, Set(1))
    ensures var t := Next(s, Set(1));
      && t.workers != [] && t.workers[0] == s.workers[0].(aborted := true) && s.workers[0].generation < |t.semaphores|
      && t.workingThreads == 0 && t.concurrent == 1 && t.queue == [] && t.log == []
  {
    ReplaceShape(s, 1);
    assert 0 in s.threads;
    assert Next(s, Set(1)).workers[0] == AbortThreads(s.workers, s.threads)[0];
  }

  lemma EntersBeforeTask(t: State)
    requires t.workers != [] && t.workers[0].pc == CallWorking && t.workers[0].generation < |t.semaphores|
    requires t.workers[0].aborted && t.workingThreads == 0 && t.concurrent == 1 && t.queue == [] && t.log == []
    ensures Enabled(t, Run(0)) && Enabled(Next(t, Run(0)), Add(Some(7), true))
    ensures var v := Next(Next(t, Run(0)), Add(Some(7), true));
      && v.queue == [TASK] && 7 in v.entrusted && |v.semaphores| == |t.semaphores|
      && v.workers != [] && v.workers[0] == t.workers[0].(working := true, pc := Fetch)
  {
  }

  lemma DropsNext(steps: seq<Step>, s: State) returns (more: seq<Step>)
    requires After(2, steps) == Some(s) && s.workers != [] && s.workers[0].generation < |s.semaphores|
    requires s.workers[0].pc == Fetch && s.workers[0].aborted && s.queue == [TASK] && 7 in s.entrusted
    ensures After(2, more).Some? && Dropped(7) in After(2, more).value.log && 7 in After(2, more).value.entrusted
  {
    DropSteps(s);
    hide After, WorkerStep;
    var t := WorkerStep(s, 0);
    var u := WorkerStep(t, 0);
    more := Then(2, steps, s, Run(0));
    more := Then(2, more, t, Run(0));
    more := Then(2, more, u, Run(0));
  }

  lemma DropSteps(s: State)
    requires s.workers != [] && s.workers[0].generation < |s.semaphores|
    requires s.workers[0].pc == Fetch && s.workers[0].aborted && s.queue == [TASK] && 7 in s.entrusted
    ensures CanStep(s, 0) && WorkerStep(s, 0).semaphores != []
    ensures var t := WorkerStep(s, 0); CanStep(t, 0) && WorkerStep(t, 0).semaphores != []
    ensures var u := WorkerStep(WorkerStep(s, 0), 0);
      CanStep(u, 0) && Dropped(7) in WorkerStep(u, 0).log && 7 in WorkerStep(u, 0).entrusted
  {
    var t := WorkerStep(s, 0);
    assert t.workers[0] == s.workers[0].(element := Some(TASK), pc := Publish);
    var u := WorkerStep(t, 0);
    assert u.workers[0] == t.workers[0].(task := Some(7), pc := RunTest);
    assert WorkerStep(u, 0).log == u.log + [Dropped(7)];
  }
}
