/** The inductive invariant of the pool's machinery: who is where, what the counters
    and the semaphores say about it. It does not speak of tasks (PoolLedger.dfy). */
module PoolInvariant {
  import opened Basics
  import opened PoolModel
  import opened PoolCounting
  import opened Tallies

  /** m_threads holds exactly the current generation, the last m_concurrentThreads
      threads that were made. */
  ghost predicate Shape(s: State) {
    && |s.semaphores| >= 2
    && 1 <= s.concurrent <= |s.workers|
    && s.concurrent <= INT_MAX && s.schedule <= INT_MAX
    && s.threads == Range(|s.workers| - s.concurrent, s.concurrent)
    && (forall i :: 0 <= i < |s.workers| ==> 1 <= s.workers[i].generation <= s.Current())
    && (forall i :: 0 <= i < |s.workers| ==>
          (s.workers[i].generation == s.Current() <==> |s.workers| - s.concurrent <= i))
  }

  /** Which local states of Entry() a thread can be in. */
  ghost predicate Sane(w: Worker, current: int) {
    && (w.aborted <==> w.generation < current)
    && (w.pc in {Fetch, Publish, RunTest, Execute, Clear, NotifyEnded} ==> w.working)
    && (w.pc in {CallWaiting, AtWait, AbortTest, CallWorking} ==> !w.working)
    // a replaced thread was outside the working section when it was told to abort
    && (w.aborted ==> w.pc !in {CallWaiting, Execute, Clear, NotifyEnded})
    && (!w.aborted ==> w.pc !in {Leaving, Exited, Destroyed})
    && (w.pc in {RunTest, Execute, Clear} ==> w.element.Some? && w.task == Some(w.element.value.task))
    && (w.pc !in {Publish, RunTest, Execute, Clear} ==> w.element.None?)
    && (w.task.Some? ==>
          || w.pc in {RunTest, Execute, Clear}
          || (w.aborted && w.pc in {LoopTest, Leaving, Exited, Destroyed}))
  }

  ghost predicate AllSane(s: State) {
    forall i :: 0 <= i < |s.workers| ==> Sane(s.workers[i], s.Current())
  }

  ghost predicate CounterExact(s: State) {
    s.workingThreads == Count(s.workers, InSection)
  }

  /** The pool and every living thread of generation g own semaphore g; nobody else does. */
  ghost predicate OwnersExact(s: State) {
    forall g: nat :: g < |s.semaphores| ==>
      s.semaphores[g].owners == Count(s.workers, Owning(g)) + One(g == s.Current())
  }

  /** Every replaced semaphore has a token for each thread still waiting on it. */
  ghost predicate TokensSuffice(s: State)
    requires s.semaphores != []
  {
    && s.semaphores[s.Current()].max == s.concurrent
    && s.semaphores[s.Current()].value <= s.concurrent
    && forall g: nat :: g < s.Current() ==> s.semaphores[g].value >= Count(s.workers, Waiting(g))
  }

  ghost predicate Machine(s: State) {
    Shape(s) && AllSane(s) && CounterExact(s) && OwnersExact(s) && TokensSuffice(s)
  }

  // ------------------------------------------------------------- how steps keep it

  /** t is s with worker i changed (and perhaps semaphores, counters and tasks). */
  ghost predicate OneMoved(s: State, t: State, i: nat) {
    && t.concurrent == s.concurrent && t.schedule == s.schedule && t.threads == s.threads
    && |t.semaphores| == |s.semaphores|
    && i < |s.workers| && i < |t.workers| && t.workers == s.workers[i := t.workers[i]]
    && t.workers[i].generation == s.workers[i].generation
  }

  lemma MovedShape(s: State, t: State, i: nat)
    requires Shape(s) && AllSane(s) && OneMoved(s, t, i) && Sane(t.workers[i], s.Current())
    ensures Shape(t) && AllSane(t)
  {
  }

  /** Worker i moves on; the counter follows it in and out of the working section. */
  lemma Moves(s: State, t: State, i: nat)
    requires Machine(s) && OneMoved(s, t, i) && t.semaphores == s.semaphores
    requires t.workingThreads - s.workingThreads == One(Is(t.workers[i], InSection)) - One(Is(s.workers[i], InSection))
    requires t.workers[i].pc != Destroyed && s.workers[i].pc != Destroyed
    requires Sane(t.workers[i], s.Current())
    requires t.workers[i].aborted ==> t.workers[i].pc != AtWait
    ensures Machine(t)
  {
    MovedShape(s, t, i);
    var w := t.workers[i];
    forall g: nat | g < |t.semaphores|
      ensures t.semaphores[g].owners == Count(t.workers, Owning(g)) + One(g == t.Current())
      ensures g < t.Current() ==> t.semaphores[g].value >= Count(t.workers, Waiting(g))
    {
      CountUpdate(s.workers, i, w, Owning(g));
      CountUpdate(s.workers, i, w, Waiting(g));
    }
    CountUpdate(s.workers, i, w, InSection);
  }

  /** Post() on the current semaphore never exceeds its maximum. */
  lemma Posts(s: State, n: nat)
    requires Machine(s)
    ensures Machine(PostCurrent(s, n))
    ensures PostCurrent(s, n).semaphores[s.Current()].value == Min(s.concurrent, s.semaphores[s.Current()].value + n)
  {
    PostManyValue(s.semaphores[s.Current()], n);
    var t := PostCurrent(s, n);
    assert forall g: nat :: g < s.Current() ==> t.semaphores[g] == s.semaphores[g];
  }

  /** A worker gets through Wait(). */
  lemma Takes(s: State, i: nat)
    requires Machine(s) && CanStep(s, i) && s.workers[i].pc == AtWait
    ensures Machine(WorkerStep(s, i))
  {
    var t := WorkerStep(s, i);
    assert Sane(s.workers[i], s.Current());
    MovedShape(s, t, i);
    CountUpdate(s.workers, i, t.workers[i], InSection);
    forall g: nat | g < |t.semaphores|
      ensures t.semaphores[g].owners == Count(t.workers, Owning(g)) + One(g == t.Current())
      ensures g < t.Current() ==> t.semaphores[g].value >= Count(t.workers, Waiting(g))
    {
      CountUpdate(s.workers, i, t.workers[i], Owning(g));
      CountUpdate(s.workers, i, t.workers[i], Waiting(g));
    }
  }

  /** A thread object is destroyed and lets go of its semaphore. */
  lemma Dies(s: State, i: nat)
    requires Machine(s) && CanStep(s, i) && s.workers[i].pc == Exited
    ensures Machine(WorkerStep(s, i))
  {
    var t := WorkerStep(s, i);
    assert Sane(s.workers[i], s.Current());
    MovedShape(s, t, i);
    CountUpdate(s.workers, i, t.workers[i], InSection);
    CountSome(s.workers, i, Owning(s.workers[i].generation));
    forall g: nat | g < |t.semaphores|
      ensures t.semaphores[g].owners == Count(t.workers, Owning(g)) + One(g == t.Current())
      ensures g < t.Current() ==> t.semaphores[g].value >= Count(t.workers, Waiting(g))
    {
      CountUpdate(s.workers, i, t.workers[i], Owning(g));
      CountUpdate(s.workers, i, t.workers[i], Waiting(g));
    }
  }

  /** Nobody is told to abort inside the working section. */
  lemma IdleWorker(s: State, i: nat)
    requires Machine(s) && s.workingThreads == 0 && i < |s.workers|
    ensures !Is(s.workers[i], InSection)
  {
    if Is(s.workers[i], InSection) { CountSome(s.workers, i, InSection); }
  }

  /** The state after Replace, written out. */
  ghost predicate Replaced(s: State, t: State, n: nat)
    requires s.semaphores != []
  {
    && t.workers == AbortThreads(s.workers, s.threads) + NewWorkers(|s.semaphores|, n)
    && |t.semaphores| == |s.semaphores| + 1
    && (forall g: nat :: g < s.Current() ==> t.semaphores[g] == s.semaphores[g])
    && t.semaphores[s.Current()].value == s.concurrent
    && t.semaphores[s.Current()].owners + 1 == s.semaphores[s.Current()].owners
    && t.semaphores[t.Current()] == Semaphore(0, n, 1 + n)
    && t.concurrent == n && t.schedule == 0 && t.workingThreads == s.workingThreads
    && t.threads == Range(|s.workers|, n)
  }

  lemma ReplaceShape(s: State, n: nat)
    requires Machine(s) && s.workingThreads == 0 && 1 <= n <= INT_MAX
    ensures Replaced(s, Replace(s, n), n)
  {
    PostManyValue(s.semaphores[s.Current()], s.concurrent);
  }

  lemma ReplacedCount(s: State, t: State, n: nat, k: Situation)
    requires s.semaphores != [] && Replaced(s, t, n)
    ensures Count(t.workers, k) == Count(s.workers, k) + n * One(Is(NewWorker(|s.semaphores|), k))
  {
    CountWithNew(AbortThreads(s.workers, s.threads), |s.semaphores|, n, k);
    CountAborted(s.workers, s.threads, k);
  }

  lemma ReplacedWorkers(s: State, t: State, n: nat)
    requires Machine(s) && s.workingThreads == 0 && 1 <= n <= INT_MAX
    requires Replaced(s, t, n)
    ensures Shape(t) && AllSane(t)
  {
    NewWorkersAt(|s.semaphores|, n);
    var before := AbortThreads(s.workers, s.threads);
    forall i | 0 <= i < |t.workers|
      ensures 1 <= t.workers[i].generation <= t.Current()
      ensures t.workers[i].generation == t.Current() <==> |t.workers| - n <= i
      ensures Sane(t.workers[i], t.Current())
    {
      if i < |s.workers| {
        IdleWorker(s, i);
        assert t.workers[i] == before[i];
        assert Sane(s.workers[i], s.Current());
      } else {
        assert t.workers[i] == NewWorkers(|s.semaphores|, n)[i - |s.workers|];
      }
    }
  }

  lemma ReplacedOwners(s: State, t: State, n: nat)
    requires Machine(s) && s.workingThreads == 0 && 1 <= n <= INT_MAX
    requires Replaced(s, t, n)
    ensures CounterExact(t) && OwnersExact(t)
  {
    ReplacedCount(s, t, n, InSection);
    forall g: nat | g < |t.semaphores|
      ensures t.semaphores[g].owners == Count(t.workers, Owning(g)) + One(g == t.Current())
    {
      ReplacedCount(s, t, n, Owning(g));
      if g == t.Current() { CountBound(s.workers, |s.workers|, Owning(g)); }
    }
  }

  lemma ReplacedTokens(s: State, t: State, n: nat)
    requires Machine(s) && s.workingThreads == 0 && 1 <= n <= INT_MAX
    requires Replaced(s, t, n)
    ensures TokensSuffice(t)
  {
    forall g: nat | g < t.Current()
      ensures t.semaphores[g].value >= Count(t.workers, Waiting(g))
    {
      ReplacedCount(s, t, n, Waiting(g));
      if g == s.Current() { CountBound(s.workers, |s.workers| - s.concurrent, Waiting(g)); }
    }
  }

  lemma Replaces(s: State, n: nat)
    requires Machine(s) && s.workingThreads == 0 && 1 <= n <= INT_MAX
    ensures Machine(Replace(s, n))
  {
    var t := Replace(s, n);
    ReplaceShape(s, n);
    ReplacedWorkers(s, t, n);
    ReplacedOwners(s, t, n);
    ReplacedTokens(s, t, n);
  }

  lemma Sets(s: State, n: nat)
    requires Machine(s) && 1 <= n <= INT_MAX
    ensures Machine(SetLocked(s, n))
  {
    if s.workingThreads == 0 { Replaces(s, n); }
  }

  lemma Settles(s: State)
    requires Machine(s)
    ensures Machine(Settle(s))
  {
    if s.workingThreads <= 0 && s.queue == [] {
      var s1 := Announced(s);
      assert Machine(s1);
      if s1.schedule != 0 { Sets(s1, s1.schedule); }
    } else {
      Posts(s, 1);
    }
  }

  /** The caller of WaitingThread() past the call, and no longer counted. */
  function Departed(s: State, i: nat): State
    requires i < |s.workers|
  {
    var w := s.workers[i];
    SetWorker(s, i, w.(pc := if w.pc == CallWaiting then AtWait else Exited)).(workingThreads := s.workingThreads - 1)
  }

  predicate Departing(s: State, i: nat) {
    i < |s.workers| && (s.workers[i].pc == CallWaiting || (s.workers[i].pc == Leaving && s.workers[i].working))
  }

  lemma Departs(s: State, i: nat)
    requires Machine(s) && Departing(s, i)
    ensures Machine(Departed(s, i))
  {
    assert Sane(s.workers[i], s.Current());
    Moves(s, Departed(s, i), i);
  }

  /** Told to abort by its own call of WaitingThread(), a thread does not go on to Wait(). */
  lemma Refused(s: State, i: nat)
    requires Machine(s) && i < |s.workers| && s.workers[i].pc == CallWaiting
    requires !WaitingThread(SetWorker(s, i, s.workers[i].(pc := AtWait))).1
    ensures var r := Settle(Departed(s, i));
      i < |r.workers| && r.workers[i] == s.workers[i].(pc := AtWait, aborted := true)
  {
    var d := Departed(s, i);
    Departs(s, i);
    assert d.workers[i] == s.workers[i].(pc := AtWait);
    assert Sane(s.workers[i], s.Current());
    RefusedSettle(d, i);
  }

  lemma RefusedSettle(d: State, i: nat)
    requires Machine(d) && d.workingThreads <= 0 && d.queue == [] && d.schedule != 0
    requires i < |d.workers| && d.workers[i].generation == d.Current()
    ensures var r := Settle(d); i < |r.workers| && r.workers[i] == d.workers[i].(aborted := true)
  {
    var s1 := Announced(d);
    assert Machine(s1);
    RefusedReplace(s1, i);
  }

  lemma RefusedReplace(s: State, i: nat)
    requires Machine(s) && s.workingThreads == 0 && 1 <= s.schedule && i in s.threads
    ensures i < |s.workers| && i < |Replace(s, s.schedule).workers|
    ensures Replace(s, s.schedule).workers[i] == s.workers[i].(aborted := true)
  {
    ReplaceShape(s, s.schedule);
    assert AbortThreads(s.workers, s.threads)[i] == s.workers[i].(aborted := true);
  }

  /** A worker on its way out after WaitingThread() returned false. */
  lemma GivesUp(r: State, i: nat)
    requires Machine(r) && i < |r.workers| && r.workers[i].aborted && r.workers[i].pc == AtWait
    ensures Machine(SetWorker(r, i, r.workers[i].(pc := Leaving)))
  {
    assert Sane(r.workers[i], r.Current());
    Moves(r, SetWorker(r, i, r.workers[i].(pc := Leaving)), i);
  }

  lemma WaitingIsSettle(s: State, i: nat)
    requires CanStep(s, i) && Departing(s, i)
    requires s.workers[i].pc == CallWaiting ==> WaitingThread(SetWorker(s, i, s.workers[i].(pc := AtWait))).1
    ensures WorkerStep(s, i) == Settle(Departed(s, i))
  {
  }

  lemma WaitingStep(s: State, i: nat)
    requires Machine(s) && CanStep(s, i) && Departing(s, i)
    ensures Machine(WorkerStep(s, i))
  {
    Departs(s, i);
    var d := Departed(s, i);
    Settles(d);
    if s.workers[i].pc == CallWaiting && !WaitingThread(SetWorker(s, i, s.workers[i].(pc := AtWait))).1 {
      Refused(s, i);
      GivesUp(Settle(d), i);
    } else {
      WaitingIsSettle(s, i);
    }
  }

  /** The steps that leave the working section's membership alone. */
  lemma LocalStep(s: State, i: nat)
    requires Machine(s) && CanStep(s, i) && !Departing(s, i)
    requires s.workers[i].pc in {LoopTest, AbortTest, Fetch, Publish, RunTest, Leaving}
    ensures Machine(WorkerStep(s, i))
  {
    assert Sane(s.workers[i], s.Current());
    Moves(s, WorkerStep(s, i), i);
  }

  lemma LocalRunStep(s: State, i: nat)
    requires Machine(s) && CanStep(s, i)
    requires s.workers[i].pc in {CallWorking, Execute, Clear, NotifyEnded}
    ensures Machine(WorkerStep(s, i))
  {
    assert Sane(s.workers[i], s.Current());
    Moves(s, WorkerStep(s, i), i);
  }

  lemma MachineWorkerStep(s: State, i: nat)
    requires Machine(s) && CanStep(s, i)
    ensures Machine(WorkerStep(s, i))
  {
    if Departing(s, i) { WaitingStep(s, i); }
    else if s.workers[i].pc == AtWait { Takes(s, i); }
    else if s.workers[i].pc == Exited { Dies(s, i); }
    else if s.workers[i].pc in {CallWorking, Execute, Clear, NotifyEnded} { LocalRunStep(s, i); }
    else { LocalStep(s, i); }
  }

  /** The constructor's result, written out. */
  ghost predicate Fresh(t: State, n: nat) {
    && t.semaphores == [Semaphore(0, 0, 0), Semaphore(0, n, 1 + n)]
    && t.workers == NewWorkers(1, n)
    && t.threads == Range(0, n)
    && t.concurrent == n && t.schedule == 0 && t.workingThreads == 0
    && !t.taskAdded && !t.batching && t.queue == [] && t.told == {}
    && t.entrusted == {} && t.deleted == {} && t.log == []
  }

  lemma InitFresh(n: nat)
    requires 1 <= n <= INT_MAX
    ensures Fresh(Init(n), n)
  {
    assert AbortThreads([], []) == [];
    assert [] + NewWorkers(1, n) == NewWorkers(1, n);
  }

  lemma FreshCount(t: State, n: nat, k: Situation)
    requires Fresh(t, n)
    ensures Count(t.workers, k) == n * One(Is(NewWorker(1), k))
  {
    CountWithNew([], 1, n, k);
    assert [] + NewWorkers(1, n) == NewWorkers(1, n);
  }

  lemma FreshMachine(t: State, n: nat)
    requires Fresh(t, n) && 1 <= n <= INT_MAX
    ensures Machine(t)
  {
    NewWorkersAt(1, n);
    FreshCount(t, n, InSection);
    FreshCount(t, n, Owning(0));
    FreshCount(t, n, Owning(1));
    FreshCount(t, n, Waiting(0));
  }

  lemma Awakes(s: State)
    requires Machine(s)
    ensures Machine(AwakeNeeded(s))
  {
    Posts(s, Min(|s.queue|, SizeT(s.concurrent - s.workingThreads)));
  }

  lemma MachineAdd(s: State, task: Option<TaskId>, autodelete: bool)
    requires Machine(s)
    ensures Machine(AddTask(s, task, autodelete))
  {
    if task.Some? {
      var s1 := Pushed(s, task.value, autodelete);
      assert Machine(s1);
      Awakes(s1);
    }
  }

  lemma MachineOwnerCall(s: State, step: Step)
    requires Machine(s) && Enabled(s, step) && !step.Run?
    ensures Machine(Next(s, step))
  {
    match step
    case Set(n) =>
      if n == s.concurrent { assert Machine(s.(schedule := 0)); } else { Sets(s, n); }
    case Add(task, autodelete) => MachineAdd(s, task, autodelete);
    case End =>
      assert Machine(s.(batching := false));
      Awakes(s.(batching := false));
    case _ =>
  }

  lemma MachineNext(s: State, step: Step)
    requires Machine(s) && Enabled(s, step)
    ensures Machine(Next(s, step))
  {
    if step.Run? { MachineWorkerStep(s, step.worker); } else { MachineOwnerCall(s, step); }
  }
}
