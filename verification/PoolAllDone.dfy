/** When ALLDONE is owed: the exact condition, on whole runs. */
module PoolAllDone {
  import opened Basics
  import opened PoolModel
  import opened PoolCounting
  import opened PoolInvariant
  import opened PoolLedger
  import opened PoolWakeup
  import opened PoolTheorems

  /** A task that the owner adds; AddTask(nullptr) is no such call. */
  predicate AddsTask(step: Step) { step.Add? && step.task.Some? }

  /** A task has been added, and since the last one was no worker has called WaitingThread(). */
  predicate Unattended(n: nat, steps: seq<Step>)
    requires After(n, steps).Some?
  {
    steps != []
    && var last := steps[|steps| - 1];
       AddsTask(last)
       || (Unattended(n, steps[..|steps| - 1])
           && !(last.Run? && Departing(After(n, steps[..|steps| - 1]).value, last.worker)))
  }

  /** Who is owed ALLDONE is owed it by someone who is moving. */
  ghost predicate Attended(s: State)
    requires s.semaphores != []
  {
    s.taskAdded ==> Active(s)
  }

  // ------------------------------------------------------- calls of WaitingThread()

  lemma SettleAttended(s: State)
    requires Machine(s)
    ensures Attended(Settle(s))
  {
    if s.workingThreads <= 0 && s.queue == [] {
      hide Machine, Active;
    } else {
      hide Machine;
      PostIsActive(s, 1);
    }
  }

  lemma WaitingAttended(s: State, i: nat)
    requires Machine(s) && CanStep(s, i) && Departing(s, i)
    ensures WorkerStep(s, i).semaphores != [] && Attended(WorkerStep(s, i))
  {
    var d := Departed(s, i);
    Departs(s, i);
    SettleAttended(d);
    Settles(d);
    assert Settle(d).semaphores != [];
    hide Machine, Active;
    if s.workers[i].pc == CallWaiting && !WaitingThread(SetWorker(s, i, s.workers[i].(pc := AtWait))).1 {
      RefusedQuiet(s, i);
    } else {
      WaitingIsSettle(s, i);
    }
  }

  /** WaitingThread() answers false only after it has sent what it owed. */
  lemma RefusedQuiet(s: State, i: nat)
    requires CanStep(s, i) && s.workers[i].pc == CallWaiting
    requires !WaitingThread(SetWorker(s, i, s.workers[i].(pc := AtWait))).1
    ensures WorkerStep(s, i).semaphores != [] && !WorkerStep(s, i).taskAdded
  {
  }

  // ------------------------------------------------------------------- other steps

  lemma OldStaysActive(s: State, t: State, i: nat)
    requires s.semaphores != [] && |t.semaphores| == |s.semaphores| && i < |s.workers| && i < |t.workers|
    requires t.workers == s.workers[i := t.workers[i]] && t.workingThreads == s.workingThreads
    requires t.workers[i].generation == s.workers[i].generation < s.Current()
    requires t.semaphores[s.Current()] == s.semaphores[s.Current()]
    requires Active(s)
    ensures Active(t)
  {
    CountUpdate(s.workers, i, t.workers[i], Awake(s.Current()));
  }

  lemma OutsideActive(s: State, i: nat)
    requires Machine(s) && CanStep(s, i) && !Is(s.workers[i], InSection) && Active(s)
    ensures WorkerStep(s, i).semaphores != [] && Active(WorkerStep(s, i))
  {
    var t := WorkerStep(s, i);
    assert Sane(s.workers[i], s.Current());
    if s.workers[i].pc == CallWorking {
      MachineWorkerStep(s, i);
      SectionIsActive(t, i);
    } else if s.workers[i].aborted {
      OldStaysActive(s, t, i);
    } else {
      AwakeWorkerIsActive(t, i);
    }
  }

  lemma InsideActive(s: State, i: nat)
    requires Machine(s) && CanStep(s, i) && Is(s.workers[i], InSection) && !Departing(s, i)
    ensures WorkerStep(s, i).semaphores != [] && Active(WorkerStep(s, i))
  {
    assert Sane(s.workers[i], s.Current());
    MachineWorkerStep(s, i);
    SectionIsActive(WorkerStep(s, i), i);
  }

  /** Only WaitingThread() takes m_taskAdded back. */
  lemma FlagKept(s: State, i: nat)
    requires CanStep(s, i) && !Departing(s, i)
    ensures WorkerStep(s, i).taskAdded == s.taskAdded
  {
  }

  lemma WorkerAttended(s: State, i: nat)
    requires s.semaphores != [] && Machine(s) && Attended(s) && CanStep(s, i)
    ensures WorkerStep(s, i).semaphores != [] && Attended(WorkerStep(s, i))
  {
    hide Machine, Active, WorkerStep;
    MachineKeepsSome(s, i);
    if Departing(s, i) {
      WaitingAttended(s, i);
    } else {
      FlagKept(s, i);
      if s.taskAdded {
        if Is(s.workers[i], InSection) { InsideActive(s, i); } else { OutsideActive(s, i); }
      }
    }
  }

  lemma MachineKeepsSome(s: State, i: nat)
    requires Machine(s) && CanStep(s, i)
    ensures WorkerStep(s, i).semaphores != []
  {
    MachineWorkerStep(s, i);
  }

  lemma SetAttended(s: State, n: nat)
    requires s.semaphores != [] && Machine(s) && Attended(s) && 1 <= n <= INT_MAX
    ensures SetConcurrentThreads(s, n).semaphores != [] && Attended(SetConcurrentThreads(s, n))
  {
    if n != s.concurrent && s.workingThreads == 0 { ReplaceIsActive(s, n); }
  }

  lemma EndAttended(s: State)
    requires s.semaphores != [] && Machine(s) && Attended(s)
    ensures BatchEnd(s).semaphores != [] && Attended(BatchEnd(s))
  {
    assert Machine(s.(batching := false));
    AwakeIsActive(s.(batching := false));
  }

  lemma AttendedNext(s: State, step: Step)
    requires s.semaphores != [] && Machine(s) && Attended(s) && Enabled(s, step) && !AddsTask(step)
    ensures Next(s, step).semaphores != [] && Attended(Next(s, step))
  {
    hide Machine, SetConcurrentThreads, BatchEnd, WorkerStep;
    match step
    case Set(n) => SetAttended(s, n);
    case End => EndAttended(s);
    case Run(i) => WorkerAttended(s, i);
    case _ =>
  }

  // -------------------------------------------------------------------------- runs

  lemma AddSetsFlag(s: State, step: Step)
    requires Enabled(s, step) && AddsTask(step)
    ensures Next(s, step).taskAdded
  {
  }

  lemma NextKeepsFlag(s: State, step: Step)
    requires Enabled(s, step) && !(step.Run? && Departing(s, step.worker))
    ensures s.taskAdded ==> Next(s, step).taskAdded
  {
    if step.Run? { FlagKept(s, step.worker); }
  }

  /** In every run: while nobody has called WaitingThread() since the last task was added, it
      is owed; and as soon as someone has, whoever is owed ALLDONE has someone moving. */
  lemma {:induction false} OwedInRuns(n: nat, steps: seq<Step>)
    requires After(n, steps).Some?
    ensures var s := After(n, steps).value;
      && s.semaphores != []
      && (Unattended(n, steps) ==> s.taskAdded)
      && (!Unattended(n, steps) ==> Attended(s))
  {
    if steps == [] {
      InitFresh(n);
    } else {
      var before, last := steps[..|steps| - 1], steps[|steps| - 1];
      var s := After(n, before).value;
      OwedInRuns(n, before);
      RunInv(n, before);
      RunInv(n, steps);
      hide Machine, Active, Ledger, Next, Departing;
      if AddsTask(last) {
        AddSetsFlag(s, last);
      } else if last.Run? && Departing(s, last.worker) {
        DepartingAttended(s, last.worker);
      } else if Unattended(n, before) {
        NextKeepsFlag(s, last);
      } else {
        AttendedNext(s, last);
      }
    }
  }

  lemma DepartingAttended(s: State, i: nat)
    requires Machine(s) && Enabled(s, Run(i)) && Departing(s, i)
    ensures Next(s, Run(i)).semaphores != [] && Attended(Next(s, Run(i)))
  {
    WaitingAttended(s, i);
  }

  /** When the pool has come to rest, ALLDONE is owed (a task was added since the last one,
      or since the start) exactly when no worker has called WaitingThread() since the last
      task was added. */
  lemma OwedExactly(n: nat, steps: seq<Step>)
    requires After(n, steps).Some? && AtRest(After(n, steps).value)
    ensures AddedSince(After(n, steps).value.log) == After(n, steps).value.taskAdded == Unattended(n, steps)
  {
    OwedInRuns(n, steps);
    RunInv(n, steps);
    RestingWorkers(After(n, steps).value);
  }
}
