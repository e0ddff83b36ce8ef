/** No lost wake-up: while there is work to hand out, something is still moving. */
module PoolWakeup {
  import opened Basics
  import opened PoolModel
  import opened PoolCounting
  import opened Tallies
  import opened PoolInvariant
  import opened PoolLedger

  /** A token is waiting to be taken, a worker is in the working section, or a worker of
      the current generation is on its way into it. */
  ghost predicate Active(s: State)
    requires s.semaphores != []
  {
    || s.semaphores[s.Current()].value > 0
    || s.workingThreads > 0
    || Count(s.workers, Awake(s.Current())) > 0
  }

  /** Has a worker fetched a task since the last ALLDONE event? */
  predicate FetchedSince(log: seq<Event>) {
    log != [] && !log[|log|-1].AllDone? && (log[|log|-1].Fetched? || FetchedSince(log[..|log|-1]))
  }

  /** Is there something the pool still has to do by itself: queued tasks (outside batch
      mode), a pending change of the thread count, or an ALLDONE event for work done? */
  ghost predicate Owing(s: State) {
    (s.queue != [] && !s.batching) || s.schedule != 0 || FetchedSince(s.log)
  }

  ghost predicate Wakeful(s: State)
    requires s.semaphores != []
  {
    && (Owing(s) ==> Active(s))
    && (s.queue != [] || FetchedSince(s.log) ==> s.taskAdded)
  }

  lemma FetchedAppended(log: seq<Event>, e: Event)
    ensures FetchedSince(log + [e]) <==> !e.AllDone? && (e.Fetched? || FetchedSince(log))
  {
    assert (log + [e])[..|log|] == log;
  }

  lemma {:induction false} FetchedDiscard(log: seq<Event>, queue: seq<Element>)
    ensures FetchedSince(log + DiscardEvents(queue)) == FetchedSince(log)
  {
    if queue == [] {
      assert log + DiscardEvents(queue) == log;
    } else {
      var front, last := queue[..|queue|-1], queue[|queue|-1].task;
      FetchedDiscard(log, front);
      assert log + DiscardEvents(queue) == (log + DiscardEvents(front)) + [Discarded(last)];
      FetchedAppended(log + DiscardEvents(front), Discarded(last));
    }
  }

  // ------------------------------------------------------------- owner's calls

  lemma PostIsActive(s: State, n: nat)
    requires Machine(s)
    ensures n > 0 ==> Active(PostCurrent(s, n))
    ensures Active(s) ==> Active(PostCurrent(s, n))
  {
    Posts(s, n);
  }

  lemma AwakeIsActive(s: State)
    requires Machine(s)
    ensures s.queue != [] ==> Active(AwakeNeeded(s))
    ensures Active(s) ==> Active(AwakeNeeded(s))
  {
    var n := Min(|s.queue|, SizeT(s.concurrent - s.workingThreads));
    PostIsActive(s, n);
    if s.queue != [] && s.workingThreads == 0 {
      assert n > 0;
    }
  }

  lemma ReplaceIsActive(s: State, n: nat)
    requires Machine(s) && s.workingThreads == 0 && 1 <= n <= INT_MAX
    ensures Active(Replace(s, n))
  {
    ReplaceShape(s, n);
    ReplacedCount(s, Replace(s, n), n, Awake(|s.semaphores|));
  }

  lemma SetWakeful(s: State, n: nat)
    requires Machine(s) && Wakeful(s) && 1 <= n <= INT_MAX
    ensures Wakeful(SetLocked(s, n))
  {
    if s.workingThreads == 0 { ReplaceIsActive(s, n); }
  }

  lemma AddWakeful(s: State, t: TaskId, autodelete: bool)
    requires Machine(s) && Wakeful(s)
    ensures Wakeful(AddTask(s, Some(t), autodelete))
  {
    var s1 := Pushed(s, t, autodelete);
    FetchedAppended(s.log, Added(t));
    assert Machine(s1);
    AwakeIsActive(s1);
  }

  lemma EndWakeful(s: State)
    requires Machine(s) && Wakeful(s)
    ensures Wakeful(BatchEnd(s))
  {
    assert Machine(s.(batching := false));
    AwakeIsActive(s.(batching := false));
  }

  lemma OwnerWakeful(s: State, step: Step)
    requires Machine(s) && Wakeful(s) && Enabled(s, step) && !step.Run?
    ensures Next(s, step).semaphores != [] && Wakeful(Next(s, step))
  {
    match step
    case Set(n) => if n != s.concurrent { SetWakeful(s, n); }
    case Add(task, autodelete) => if task.Some? { AddWakeful(s, task.value, autodelete); }
    case AbortAll => FetchedDiscard(s.log, s.queue);
    case End => EndWakeful(s);
    case _ =>
  }

  // ------------------------------------------------------------- workers' steps

  lemma SectionIsActive(t: State, i: nat)
    requires t.semaphores != [] && CounterExact(t) && i < |t.workers| && Is(t.workers[i], InSection)
    ensures Active(t)
  {
    CountSome(t.workers, i, InSection);
  }

  lemma AwakeWorkerIsActive(t: State, i: nat)
    requires t.semaphores != [] && i < |t.workers| && Is(t.workers[i], Awake(t.Current()))
    ensures Active(t)
  {
    CountSome(t.workers, i, Awake(t.Current()));
  }

  /** A thread of a replaced generation, outside the working section, changes nothing. */
  lemma OldIsIrrelevant(s: State, t: State, i: nat)
    requires s.semaphores != [] && |t.semaphores| == |s.semaphores| && i < |s.workers| && i < |t.workers|
    requires t.workers == s.workers[i := t.workers[i]]
    requires t.workingThreads == s.workingThreads
    requires t.workers[i].generation == s.workers[i].generation < s.Current()
    requires t.semaphores[s.Current()] == s.semaphores[s.Current()]
    requires t.queue == s.queue && t.batching == s.batching && t.schedule == s.schedule
    requires t.log == s.log && t.taskAdded == s.taskAdded
    requires Wakeful(s)
    ensures Wakeful(t)
  {
    CountUpdate(s.workers, i, t.workers[i], Awake(s.Current()));
  }

  lemma OutsideWakeful(s: State, i: nat)
    requires Machine(s) && Wakeful(s) && CanStep(s, i) && !Is(s.workers[i], InSection)
    ensures WorkerStep(s, i).semaphores != [] && Wakeful(WorkerStep(s, i))
  {
    var t := WorkerStep(s, i);
    assert Sane(s.workers[i], s.Current());
    if s.workers[i].pc == CallWorking {
      MachineWorkerStep(s, i);
      SectionIsActive(t, i);
    } else if s.workers[i].aborted {
      OldIsIrrelevant(s, t, i);
    } else {
      AwakeWorkerIsActive(t, i);
    }
  }

  lemma InsideWakeful(s: State, i: nat)
    requires Machine(s) && Wakeful(s) && CanStep(s, i)
    requires Is(s.workers[i], InSection) && !Departing(s, i)
    ensures WorkerStep(s, i).semaphores != [] && Wakeful(WorkerStep(s, i))
  {
    var t := WorkerStep(s, i);
    InsideStays(s, i);
    MachineWorkerStep(s, i);
    SectionIsActive(t, i);
    InsideLog(s, i);
    hide WorkerStep, Machine, Active;
    if t.log != s.log { FetchedAppended(s.log, t.log[|s.log|]); }
  }

  lemma InsideStays(s: State, i: nat)
    requires Machine(s) && CanStep(s, i) && Is(s.workers[i], InSection) && !Departing(s, i)
    ensures var t := WorkerStep(s, i);
      i < |t.workers| && Is(t.workers[i], InSection) && t.taskAdded == s.taskAdded && t.batching == s.batching
  {
    assert Sane(s.workers[i], s.Current());
  }

  lemma InsideLog(s: State, i: nat)
    requires CanStep(s, i) && Is(s.workers[i], InSection) && !Departing(s, i)
    ensures var t := WorkerStep(s, i); t.log == s.log || (|t.log| > |s.log| && t.log == s.log + [t.log[|s.log|]])
  {
  }

  lemma QuietWakeful(s: State)
    requires Machine(s) && s.workingThreads <= 0 && s.queue == []
    requires FetchedSince(s.log) ==> s.taskAdded
    ensures Wakeful(Settle(s))
  {
    var s1 := Announced(s);
    assert Machine(s1) && s1.workingThreads == 0;
    FetchedAppended(s.log, AllDone);
    hide Machine, Active, FetchedSince;
    if s1.schedule != 0 {
      ReplaceIsActive(s1, s1.schedule);
      hide Broadcast;
    }
  }

  lemma SettleWakeful(s: State)
    requires Machine(s)
    requires s.queue != [] || FetchedSince(s.log) ==> s.taskAdded
    ensures Wakeful(Settle(s))
  {
    if s.workingThreads <= 0 && s.queue == [] {
      QuietWakeful(s);
    } else {
      hide Machine;
      PostIsActive(s, 1);
    }
  }

  lemma WaitingWakeful(s: State, i: nat)
    requires Machine(s) && Wakeful(s) && CanStep(s, i) && Departing(s, i)
    ensures WorkerStep(s, i).semaphores != [] && Wakeful(WorkerStep(s, i))
  {
    var d := Departed(s, i);
    Departs(s, i);
    Settles(d);
    SettleWakeful(d);
    var r := Settle(d);
    if s.workers[i].pc == CallWaiting && !WaitingThread(SetWorker(s, i, s.workers[i].(pc := AtWait))).1 {
      Refused(s, i);
      assert Sane(r.workers[i], r.Current());
      OldIsIrrelevant(r, SetWorker(r, i, r.workers[i].(pc := Leaving)), i);
    } else {
      WaitingIsSettle(s, i);
    }
  }

  lemma WakefulNext(s: State, step: Step)
    requires Machine(s) && Wakeful(s) && Enabled(s, step)
    ensures Next(s, step).semaphores != [] && Wakeful(Next(s, step))
  {
    if !step.Run? { OwnerWakeful(s, step); }
    else if Departing(s, step.worker) { WaitingWakeful(s, step.worker); }
    else if Is(s.workers[step.worker], InSection) { InsideWakeful(s, step.worker); }
    else { OutsideWakeful(s, step.worker); }
  }
}
