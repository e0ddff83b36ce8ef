/** cbThreadPool, its worker threads and its counted semaphores as objects that are
    updated in place. Every method is proved to compute the step of PoolModel.dfy that
    the properties of whole runs (PoolTheorems.dfy) are about. The mutex is not modelled
    by a field: a method that locks it is one step. */
module ThreadPool {
  import opened Basics
  import opened PoolModel

  class CountedSemaphore {
    var value: nat
    const max: nat
    var owners: nat

    constructor (max: nat, owners: nat)
      ensures View() == Semaphore(0, max, owners)
    {
      this.value, this.max, this.owners := 0, max, owners;
    }

    function View(): Semaphore
      reads this
    {
      Semaphore(value, max, owners)
    }

    method Post()
      modifies this`value
      ensures View() == old(View()).Posted()
    {
      if max == 0 || value < max { value := value + 1; }
    }

    /** dispose() of one CountedPtr */
    method Release()
      modifies this`owners
      ensures View() == old(View()).(owners := if old(owners) > 0 then old(owners) - 1 else 0)
    {
      if owners > 0 { owners := owners - 1; }
    }
  }

  class WorkerThread {
    const semaphore: CountedSemaphore
    ghost const generation: nat
    var aborted: bool
    var pc: Pc
    var working: bool
    var element: Option<Element>
    var task: Option<TaskId>

    constructor (semaphore: CountedSemaphore, ghost generation: nat)
      ensures this.semaphore == semaphore && View() == NewWorker(generation)
    {
      this.semaphore, this.generation := semaphore, generation;
      aborted, pc, working, element, task := false, LoopTest, false, None, None;
    }

    ghost function View(): Worker
      reads this
    {
      Worker(generation, aborted, pc, working, element, task)
    }

    /** Abort(); the task that AbortTask() reaches is returned. */
    method Abort() returns (reached: Option<TaskId>)
      modifies this`aborted
      ensures View() == old(View()).(aborted := true) && reached == task
    {
      aborted := true;
      reached := AbortTask();
    }

    method AbortTask() returns (reached: Option<TaskId>)
      ensures reached == task
    {
      reached := task;
    }
  }

  ghost predicate NoDuplicates<T>(xs: seq<T>) {
    forall i, j :: 0 <= i < j < |xs| ==> xs[i] != xs[j]
  }

  ghost function Workers(ws: seq<WorkerThread>): (r: seq<Worker>)
    reads ws
    ensures |r| == |ws| && forall i :: 0 <= i < |r| ==> r[i] == ws[i].View()
  {
    seq(|ws|, i requires 0 <= i < |ws| reads ws => ws[i].View())
  }

  ghost function Semaphores(qs: seq<CountedSemaphore>): (r: seq<Semaphore>)
    reads qs
    ensures |r| == |qs| && forall i :: 0 <= i < |r| ==> r[i] == qs[i].View()
  {
    seq(|qs|, i requires 0 <= i < |qs| reads qs => qs[i].View())
  }

  class Pool {
    var concurrentThreads: int
    var concurrentThreadsSchedule: nat
    var workingThreads: int
    var taskAdded: bool
    var batching: bool
    var tasksQueue: seq<Element>
    var threads: seq<WorkerThread>
    var semaphore: CountedSemaphore

    // every thread and every semaphore there has been, oldest first
    ghost var workers: seq<WorkerThread>
    ghost var semaphores: seq<CountedSemaphore>
    ghost var ids: seq<nat>
    // what has happened to the tasks
    ghost var told: set<TaskId>
    ghost var entrusted: set<TaskId>
    ghost var deleted: set<TaskId>
    ghost var log: seq<Event>

    ghost predicate Valid()
      reads this
    {
      && semaphores != [] && semaphore == semaphores[|semaphores|-1]
      && NoDuplicates(workers) && NoDuplicates(semaphores)
      && (forall i :: 0 <= i < |workers| ==>
            workers[i].generation < |semaphores| && workers[i].semaphore == semaphores[workers[i].generation])
      && |ids| == |threads|
      && (forall k :: 0 <= k < |ids| ==> ids[k] < |workers| && threads[k] == workers[ids[k]])
    }

    /** Threads and semaphores are only ever added, and the added ones are new. */
    twostate predicate Grown(ws: seq<WorkerThread>, qs: seq<CountedSemaphore>)
      reads this
    {
      && ws <= workers && (forall k :: |ws| <= k < |workers| ==> fresh(workers[k]))
      && qs <= semaphores && (forall k :: |qs| <= k < |semaphores| ==> fresh(semaphores[k]))
    }

    ghost function State(): State
      reads this, workers, semaphores
    {
      PoolModel.State.State(concurrentThreads, concurrentThreadsSchedule, workingThreads, taskAdded, batching,
            tasksQueue, ids, Workers(workers), Semaphores(semaphores), told, entrusted, deleted, log)
    }

    /** cbThreadPool(owner, id, n): an unnamed semaphore first, then SetConcurrentThreads. */
    constructor (n: int, cpuCount: int)
      requires 1 <= (if n <= 0 then cpuCount else n) <= INT_MAX
      ensures Valid() && State() == Init(if n <= 0 then cpuCount else n)
      ensures GetConcurrentThreads() == if n <= 0 then cpuCount else n
      ensures fresh(workers) && fresh(semaphores)
    {
      concurrentThreads, concurrentThreadsSchedule, workingThreads := -1, 0, 0;
      taskAdded, batching, tasksQueue, threads := false, false, [], [];
      var unset := new CountedSemaphore(0, 1);
      semaphore := unset;
      workers, semaphores, ids := [], [unset], [];
      told, entrusted, deleted, log := {}, {}, {}, [];
      new;
      assert State() == UNSET;
      SetConcurrentThreads(n, cpuCount);
    }

    function GetConcurrentThreads(): int
      reads this
    {
      if concurrentThreadsSchedule != 0 then concurrentThreadsSchedule else concurrentThreads
    }

    predicate Done()
      reads this
    {
      workingThreads == 0
    }

    method PostCurrentOnce()
      requires Valid()
      modifies semaphore`value
      ensures Valid() && State() == PostCurrent(old(State()), 1)
    {
      semaphore.Post();
      assert PostMany(old(semaphore.View()), 1) == old(semaphore.View()).Posted() by {
        assert PostMany(old(semaphore.View()), 0) == old(semaphore.View());
      }
      assert Semaphores(semaphores) == old(Semaphores(semaphores))[|semaphores|-1 := semaphore.View()];
    }

    /** for (i = 0; i < n; ++i) m_semaphore->Post(); */
    method PostLoop(n: nat)
      requires Valid()
      modifies semaphore`value
      ensures Valid() && State() == PostCurrent(old(State()), n)
    {
      assert Semaphores(semaphores) == old(Semaphores(semaphores))[|semaphores|-1 := semaphore.View()];
      for i := 0 to n
        invariant semaphore.View() == PostMany(old(semaphore.View()), i)
        invariant semaphore.owners == old(semaphore.owners)
      {
        semaphore.Post();
      }
      assert Semaphores(semaphores) == old(Semaphores(semaphores))[|semaphores|-1 := semaphore.View()];
    }

    method BroadcastAll()
      requires Valid()
      modifies semaphore`value
      ensures Valid() && State() == Broadcast(old(State()))
    {
      if concurrentThreads == -1 { return; }
      PostLoop(SizeT(concurrentThreads - workingThreads));
    }

    method Awake()
      requires Valid()
      modifies semaphore`value
      ensures Valid() && State() == AwakeNeeded(old(State()))
    {
      if concurrentThreads == -1 { return; }
      PostLoop(Min(|tasksQueue|, SizeT(concurrentThreads - workingThreads)));
    }

    /** (*it)->Abort() for the k-th thread of m_threads */
    method AbortOne(k: nat)
      requires Valid() && k < |threads|
      modifies this`told, {threads[k]}`aborted
      ensures Valid() && Workers(workers) == AbortThreads(old(Workers(workers)), [ids[k]])
      ensures told == old(told) + Published(old(Workers(workers)), [ids[k]])
    {
      var reached := threads[k].Abort();
      PublishedGrows(old(Workers(workers)), [], ids[k]);
      assert [] + [ids[k]] == [ids[k]];
      if reached.Some? { told := told + {reached.value}; }
      assert Workers(workers) == AbortThreads(old(Workers(workers)), [ids[k]]);
    }

    /** std::for_each(m_threads, Abort) */
    method AbortThreadsLoop()
      requires Valid()
      modifies this`told, threads`aborted
      ensures Valid() && Workers(workers) == AbortThreads(old(Workers(workers)), ids)
      ensures told == old(told) + Published(old(Workers(workers)), ids)
    {
      hide AbortThreads, Published;
      ghost var before := Workers(workers);
      AbortNone(before);
      for k := 0 to |threads|
        invariant Valid()
        invariant Workers(workers) == AbortThreads(before, ids[..k])
        invariant told == old(told) + Published(before, ids[..k])
      {
        AbortOne(k);
        AbortMore(before, ids[..k], ids[k]);
        assert ids[..k] + [ids[k]] == ids[..k+1];
      }
      assert ids[..|threads|] == ids;
    }

    /** _SetConcurrentThreads */
    method SetConcurrentThreadsLocked(n: nat)
      requires Valid()
      modifies this, threads, semaphore
      ensures Valid() && State() == SetLocked(old(State()), n)
      ensures Grown(old(workers), old(semaphores))
    {
      if workingThreads == 0 {
        ReplaceThreads(n);
      } else {
        concurrentThreadsSchedule := n;
      }
    }

    /** _SetConcurrentThreads while no thread is working. */
    method ReplaceThreads(n: nat)
      requires Valid()
      modifies this, threads, semaphore
      ensures Valid() && State() == Replace(old(State()), n)
      ensures Grown(old(workers), old(semaphores))
    {
      RetireThreads();
      RenewSemaphore(n);
      CreateThreads(n);
      ReplaceInParts(old(State()), n);
    }

    /** Every thread told to abort, every waiting thread given a token. */
    method RetireThreads()
      requires Valid()
      modifies this`told, threads`aborted, semaphore`value
      ensures Valid() && State() == Retired(old(State()))
    {
      AbortThreadsLoop();
      assert Semaphores(semaphores) == old(Semaphores(semaphores));
      assert State() == old(State()).(workers := AbortThreads(old(State()).workers, ids),
                                      told := old(State()).told + Published(old(State()).workers, ids));
      BroadcastAll();
    }

    /** m_threads.clear(); m_semaphore = CountedPtr(new wxSemaphore(0, n)); ... */
    method RenewSemaphore(n: nat)
      requires Valid()
      modifies this`threads, this`ids, this`semaphore, this`semaphores,
               this`concurrentThreads, this`concurrentThreadsSchedule, semaphore`owners
      ensures Valid() && State() == Renewed(old(State()), n)
      ensures threads == [] && old(semaphores) <= semaphores
      ensures |semaphores| == |old(semaphores)| + 1 && fresh(semaphore)
    {
      ClearThreads(n);
      SwapSemaphore(n);
    }

    method ClearThreads(n: nat)
      requires Valid()
      modifies this`threads, this`ids, this`concurrentThreads, this`concurrentThreadsSchedule
      ensures Valid() && threads == []
      ensures State() == old(State()).(threads := [], concurrent := n, schedule := 0)
    {
      threads, ids := [], [];
      concurrentThreads, concurrentThreadsSchedule := n, 0;
    }

    method SwapSemaphore(n: nat)
      requires Valid()
      modifies this`semaphore, this`semaphores, semaphore`owners
      ensures Valid() && old(semaphores) <= semaphores
      ensures |semaphores| == |old(semaphores)| + 1 && fresh(semaphore)
      ensures Semaphores(semaphores)
           == DropOwner(old(Semaphores(semaphores)), |old(semaphores)|-1) + [Semaphore(0, n, 1)]
    {
      DropSemaphore();
      var next := new CountedSemaphore(n, 1);
      InstallSemaphore(next);
    }

    /** The pool's CountedPtr disposes of the old semaphore. */
    method DropSemaphore()
      requires Valid()
      modifies semaphore`owners
      ensures Valid() && Semaphores(semaphores) == DropOwner(old(Semaphores(semaphores)), |semaphores|-1)
    {
      semaphore.Release();
      assert Semaphores(semaphores) == DropOwner(old(Semaphores(semaphores)), |semaphores|-1);
    }

    method InstallSemaphore(next: CountedSemaphore)
      requires Valid() && next !in semaphores
      modifies this`semaphore, this`semaphores
      ensures Valid() && semaphore == next && semaphores == old(semaphores) + [next]
      ensures Semaphores(semaphores) == old(Semaphores(semaphores)) + [next.View()]
    {
      semaphore := next;
      semaphores := semaphores + [next];
      assert Semaphores(semaphores) == old(Semaphores(semaphores)) + [next.View()];
    }

    /** m_threads.push_back(new cbWorkerThread(this, m_semaphore)); Create; Run */
    method CreateOne()
      requires Valid()
      modifies this`threads, this`ids, this`workers, semaphore`owners
      ensures Valid() && |workers| == |old(workers)| + 1 && workers[..|old(workers)|] == old(workers)
      ensures fresh(workers[|old(workers)|])
      ensures ids == old(ids) + [|old(workers)|]
      ensures semaphore.owners == old(semaphore.owners) + 1
      ensures Workers(workers) == old(Workers(workers)) + [NewWorker(|semaphores|-1)]
    {
      var w := new WorkerThread(semaphore, |semaphores|-1);
      semaphore.owners := semaphore.owners + 1;
      threads, ids, workers := threads + [w], ids + [|workers|], workers + [w];
      assert Workers(workers) == old(Workers(workers)) + [NewWorker(|semaphores|-1)];
    }

    /** The loop that makes and runs the new threads. */
    method CreateThreads(n: nat)
      requires Valid() && threads == []
      modifies this`threads, this`ids, this`workers, semaphore`owners
      ensures Valid() && State() == Staffed(old(State()), n)
      ensures old(workers) <= workers && forall k :: |old(workers)| <= k < |workers| ==> fresh(workers[k])
    {
      ghost var s0 := State();
      CreateLoop(n);
      assert Semaphores(semaphores) == Staffed(s0, n).semaphores;
    }

    method CreateLoop(n: nat)
      requires Valid() && threads == []
      modifies this`threads, this`ids, this`workers, semaphore`owners
      ensures Valid() && |workers| == |old(workers)| + n && workers[..|old(workers)|] == old(workers)
      ensures forall k :: |old(workers)| <= k < |workers| ==> fresh(workers[k])
      ensures semaphore.owners == old(semaphore.owners) + n
      ensures ids == Range(|old(workers)|, n)
      ensures Workers(workers) == old(Workers(workers)) + NewWorkers(|semaphores|-1, n)
    {
      hide Workers;
      for i := 0 to n
        invariant Valid() && |workers| == |old(workers)| + i && workers[..|old(workers)|] == old(workers)
        invariant forall k :: |old(workers)| <= k < |workers| ==> fresh(workers[k])
        invariant semaphore.owners == old(semaphore.owners) + i
        invariant ids == Range(|old(workers)|, i)
        invariant Workers(workers) == old(Workers(workers)) + NewWorkers(|semaphores|-1, i)
      {
        CreateOne();
      }
    }

    /** None or a negative count asks for the number of CPUs, which is cpuCount. */
    method SetConcurrentThreads(n: int, cpuCount: int)
      requires Valid() && 1 <= (if n <= 0 then cpuCount else n) <= INT_MAX
      modifies this, threads, semaphore
      ensures Valid()
      ensures State() == PoolModel.SetConcurrentThreads(old(State()), if n <= 0 then cpuCount else n)
      ensures GetConcurrentThreads() == if n <= 0 then cpuCount else n
      ensures Grown(old(workers), old(semaphores))
    {
      var count := n;
      if count <= 0 { count := cpuCount; }
      if count == concurrentThreads {
        concurrentThreadsSchedule := 0;
        return;
      }
      SetConcurrentThreadsLocked(count);
    }

    method AddTask(task: Option<TaskId>, autodelete: bool)
      requires Valid()
      modifies this`tasksQueue, this`taskAdded, this`entrusted, this`log, semaphore`value
      ensures Valid() && State() == PoolModel.AddTask(old(State()), task, autodelete)
    {
      hide Pushed, AwakeNeeded, Workers, Semaphores;
      if task.None? { return; }
      PushBack(task.value, autodelete);
      if !batching && workingThreads < concurrentThreads { Awake(); }
    }

    method PushBack(task: TaskId, autodelete: bool)
      requires Valid()
      modifies this`tasksQueue, this`taskAdded, this`entrusted, this`log
      ensures Valid() && State() == Pushed(old(State()), task, autodelete)
    {
      tasksQueue := tasksQueue + [Element(task, autodelete)];
      taskAdded := true;
      entrusted := entrusted + if autodelete then {task} else {};
      log := log + [Added(task)];
    }

    /** std::for_each(m_threads, AbortTask) */
    method AbortTasksLoop()
      requires Valid()
      modifies this`told
      ensures Valid() && told == old(told) + Published(Workers(workers), ids)
    {
      AbortNone(Workers(workers));
      hide Published, Workers;
      for k := 0 to |threads|
        invariant told == old(told) + Published(Workers(workers), ids[..k])
      {
        var reached := threads[k].AbortTask();
        PublishedGrows(Workers(workers), ids[..k], ids[k]);
        assert ids[..k] + [ids[k]] == ids[..k+1];
        if reached.Some? { told := told + {reached.value}; }
      }
      assert ids[..|threads|] == ids;
    }

    /** std::for_each(m_tasksQueue, Delete) */
    method DeleteLoop()
      requires Valid()
      modifies this`deleted, this`log
      ensures Valid() && deleted == old(deleted) + Autodeleted(tasksQueue)
      ensures log == old(log) + DiscardEvents(tasksQueue)
    {
      for k := 0 to |tasksQueue|
        invariant deleted == old(deleted) + Autodeleted(tasksQueue[..k])
        invariant log == old(log) + DiscardEvents(tasksQueue[..k])
      {
        if tasksQueue[k].autodelete { deleted := deleted + {tasksQueue[k].task}; }
        log := log + [Discarded(tasksQueue[k].task)];
        AutodeletedGrows(tasksQueue[..k], tasksQueue[k]);
        assert tasksQueue[..k+1] == tasksQueue[..k] + [tasksQueue[k]];
      }
      assert tasksQueue[..|tasksQueue|] == tasksQueue;
    }

    /** ... and m_tasksQueue.clear() */
    method DiscardQueue()
      requires Valid()
      modifies this`tasksQueue, this`deleted, this`log
      ensures Valid() && tasksQueue == [] && deleted == old(deleted) + Autodeleted(old(tasksQueue))
      ensures log == old(log) + DiscardEvents(old(tasksQueue))
    {
      DeleteLoop();
      tasksQueue := [];
    }

    method AbortAllTasks()
      requires Valid()
      modifies this`told, this`tasksQueue, this`deleted, this`log
      ensures Valid() && State() == PoolModel.AbortAllTasks(old(State()))
    {
      hide Workers, Semaphores, Published, Autodeleted, DiscardEvents;
      AbortTasksLoop();
      DiscardQueue();
    }

    method BatchBegin()
      requires Valid()
      modifies this`batching
      ensures Valid() && State() == PoolModel.BatchBegin(old(State()))
    {
      batching := true;
    }

    method BatchEnd()
      requires Valid()
      modifies this`batching, semaphore`value
      ensures Valid() && State() == PoolModel.BatchEnd(old(State()))
    {
      batching := false;
      Awake();
    }

    method GetNextTask() returns (element: Option<Element>)
      requires Valid()
      modifies this`tasksQueue, this`log
      ensures Valid() && (State(), element) == PoolModel.GetNextTask(old(State()))
    {
      if tasksQueue == [] { return None; }
      element := Some(tasksQueue[0]);
      log := log + [Fetched(tasksQueue[0].task)];
      tasksQueue := tasksQueue[1..];
    }

    method WorkingThread()
      requires Valid()
      modifies this`workingThreads
      ensures Valid() && State() == PoolModel.WorkingThread(old(State()))
    {
      workingThreads := workingThreads + 1;
    }

    /** if (m_taskAdded): the ALLDONE event. */
    method NotifyAllDone()
      requires Valid()
      modifies this`taskAdded, this`log
      ensures Valid() && State() == Announced(old(State()))
    {
      if taskAdded {
        log := log + [AllDone];
        taskAdded := false;
      }
    }

    method WaitingThread() returns (proceed: bool)
      requires Valid()
      modifies this, threads, semaphore
      ensures Valid() && (State(), proceed) == PoolModel.WaitingThread(old(State()))
      ensures Grown(old(workers), old(semaphores))
    {
      hide PoolModel.Settle;
      workingThreads := workingThreads - 1;
      proceed := SettleAfterLeaving();
    }

    /** The rest of WaitingThread, with the worker no longer counted. */
    method SettleAfterLeaving() returns (proceed: bool)
      requires Valid()
      modifies this, threads, semaphore
      ensures Valid() && State() == Settle(old(State()))
      ensures proceed == !(old(workingThreads) <= 0 && old(tasksQueue) == [] && old(concurrentThreadsSchedule) != 0)
      ensures Grown(old(workers), old(semaphores))
    {
      hide PoolModel.SetLocked, PoolModel.PostCurrent, PoolModel.Announced;
      if workingThreads <= 0 && tasksQueue == [] {
        NotifyAllDone();
        if concurrentThreadsSchedule != 0 {
          SetConcurrentThreadsLocked(concurrentThreadsSchedule);
          return false;
        }
      } else {
        PostCurrentOnce();
      }
      return true;
    }

    /** One step of w through cbWorkerThread::Entry. */
    method EntryStep(w: WorkerThread, ghost i: nat)
      requires Valid() && i < |workers| && workers[i] == w && CanStep(State(), i)
      modifies this, threads, semaphores, w
      ensures Valid() && State() == WorkerStep(old(State()), i)
      ensures Grown(old(workers), old(semaphores))
    {
      match w.pc {
        case LoopTest | AbortTest => FlagStep(w, i);
        case CallWorking => CallWorkingStep(w, i);
        case Fetch => FetchStep(w, i);
        case Publish => PublishStep(w, i);
        case RunTest => RunTestStep(w, i);
        case Execute => ExecuteStep(w, i);
        case Clear => ClearStep(w, i);
        case NotifyEnded => TaskDoneStep(w, i);
        case CallWaiting | Leaving => WaitingStep(w, i);
        case AtWait => WaitStep(w, i);
        case Exited => DestroyStep(w, i);
      }
    }

    /** w goes on to pc with these local variables. */
    method Advance(w: WorkerThread, ghost i: nat, pc: Pc, working: bool, element: Option<Element>, task: Option<TaskId>)
      requires Valid() && i < |workers| && workers[i] == w
      modifies w`pc, w`working, w`element, w`task
      ensures Valid() && State() ==
        SetWorker(old(State()), i, old(w.View()).(pc := pc, working := working, element := element, task := task))
    {
      w.pc, w.working, w.element, w.task := pc, working, element, task;
      assert Workers(workers) == old(Workers(workers))[i := w.View()];
    }

    method Record(e: Event)
      requires Valid()
      modifies this`log
      ensures Valid() && State() == old(State()).(log := old(log) + [e])
    {
      log := log + [e];
    }

    method FlagStep(w: WorkerThread, ghost i: nat)
      requires Valid() && i < |workers| && workers[i] == w && CanStep(State(), i)
      requires w.pc in {LoopTest, AbortTest}
      modifies w
      ensures Valid() && State() == WorkerStep(old(State()), i)
    {
      hide Workers, Semaphores;
      match w.pc {
        case LoopTest =>
          if w.aborted { MovePast(w, i, Leaving); }
          else if w.working { Advance(w, i, CallWaiting, false, w.element, w.task); }
          else { MovePast(w, i, AbortTest); }
        case AbortTest =>
          MovePast(w, i, if w.aborted then Leaving else CallWorking);
      }
    }

    method CallWorkingStep(w: WorkerThread, ghost i: nat)
      requires Valid() && i < |workers| && workers[i] == w && CanStep(State(), i) && w.pc == CallWorking
      modifies this`workingThreads, w
      ensures Valid() && State() == WorkerStep(old(State()), i)
    {
      hide Workers, Semaphores;
      WorkingThread();
      Advance(w, i, Fetch, true, w.element, w.task);
    }

    method FetchStep(w: WorkerThread, ghost i: nat)
      requires Valid() && i < |workers| && workers[i] == w && CanStep(State(), i) && w.pc == Fetch
      modifies this`tasksQueue, this`log, w
      ensures Valid() && State() == WorkerStep(old(State()), i)
    {
      hide Workers, Semaphores, PoolModel.GetNextTask;
      var element := GetNextTask();
      Advance(w, i, Publish, w.working, element, w.task);
    }

    method PublishStep(w: WorkerThread, ghost i: nat)
      requires Valid() && i < |workers| && workers[i] == w && CanStep(State(), i) && w.pc == Publish
      modifies w
      ensures Valid() && State() == WorkerStep(old(State()), i)
    {
      hide Workers, Semaphores;
      if w.element.None? {
        Advance(w, i, LoopTest, w.working, w.element, None);
      } else {
        Advance(w, i, RunTest, w.working, w.element, Some(w.element.value.task));
      }
    }

    method RunTestStep(w: WorkerThread, ghost i: nat)
      requires Valid() && i < |workers| && workers[i] == w && CanStep(State(), i) && w.pc == RunTest
      modifies this`log, w
      ensures Valid() && State() == WorkerStep(old(State()), i)
    {
      hide Workers, Semaphores;
      if !w.aborted {
        MovePast(w, i, Execute);
      } else {
        if w.element.Some? { Record(Dropped(w.element.value.task)); }
        Advance(w, i, LoopTest, w.working, None, w.task);
      }
    }

    method ExecuteStep(w: WorkerThread, ghost i: nat)
      requires Valid() && i < |workers| && workers[i] == w && CanStep(State(), i) && w.pc == Execute
      modifies this`log, w
      ensures Valid() && State() == WorkerStep(old(State()), i)
    {
      hide Workers, Semaphores;
      if w.element.Some? { Record(Executed(w.element.value.task)); }
      MovePast(w, i, Clear);
    }

    /** element.Delete() */
    method DeleteElement(e: Element)
      requires Valid()
      modifies this`deleted, this`log
      ensures Valid() && State() == PoolModel.DeleteElement(old(State()), e)
    {
      log := log + [Released(e.task)];
      if e.autodelete { deleted := deleted + {e.task}; }
    }

    method ClearStep(w: WorkerThread, ghost i: nat)
      requires Valid() && i < |workers| && workers[i] == w && CanStep(State(), i) && w.pc == Clear
      modifies this`deleted, this`log, w
      ensures Valid() && State() == WorkerStep(old(State()), i)
    {
      hide Workers, Semaphores, PoolModel.DeleteElement;
      if w.element.Some? { DeleteElement(w.element.value); }
      Advance(w, i, NotifyEnded, w.working, None, None);
    }

    method TaskDoneStep(w: WorkerThread, ghost i: nat)
      requires Valid() && i < |workers| && workers[i] == w && CanStep(State(), i) && w.pc == NotifyEnded
      modifies this`log, w
      ensures Valid() && State() == WorkerStep(old(State()), i)
    {
      hide Workers, Semaphores;
      Record(Ended);
      MovePast(w, i, LoopTest);
    }

    /** The two calls of WaitingThread(). */
    method WaitingStep(w: WorkerThread, ghost i: nat)
      requires Valid() && i < |workers| && workers[i] == w && CanStep(State(), i)
      requires w.pc in {CallWaiting, Leaving}
      modifies this, threads, semaphore, w
      ensures Valid() && State() == WorkerStep(old(State()), i)
      ensures Grown(old(workers), old(semaphores))
    {
      if w.pc == CallWaiting { LoopWaitingStep(w, i); } else { LastWaitingStep(w, i); }
    }

    /** The call inside the loop: break when it returns false. */
    method LoopWaitingStep(w: WorkerThread, ghost i: nat)
      requires Valid() && i < |workers| && workers[i] == w && CanStep(State(), i) && w.pc == CallWaiting
      modifies this, threads, semaphore, w
      ensures Valid() && State() == WorkerStep(old(State()), i)
      ensures Grown(old(workers), old(semaphores))
    {
      hide PoolModel.Settle;
      MovePast(w, i, AtWait);
      var proceed := WaitingThread();
      if !proceed { MovePast(w, i, Leaving); }
    }

    /** The call after the loop. */
    method LastWaitingStep(w: WorkerThread, ghost i: nat)
      requires Valid() && i < |workers| && workers[i] == w && CanStep(State(), i) && w.pc == Leaving
      modifies this, threads, semaphore, w
      ensures Valid() && State() == WorkerStep(old(State()), i)
      ensures Grown(old(workers), old(semaphores))
    {
      hide PoolModel.Settle;
      MovePast(w, i, Exited);
      if w.working { var _ := WaitingThread(); }
    }

    /** Wait() on the thread's own semaphore. */
    method WaitStep(w: WorkerThread, ghost i: nat)
      requires Valid() && i < |workers| && workers[i] == w && CanStep(State(), i) && w.pc == AtWait
      modifies w.semaphore, w
      ensures Valid() && State() == WorkerStep(old(State()), i)
    {
      TakeToken(w.semaphore, w.generation);
      hide Workers, Semaphores;
      MovePast(w, i, AbortTest);
    }

    method TakeToken(q: CountedSemaphore, ghost g: nat)
      requires Valid() && g < |semaphores| && semaphores[g] == q && q.value > 0
      modifies q`value
      ensures Valid() && State() == old(State()).(semaphores :=
        old(State()).semaphores[g := old(q.View()).(value := old(q.value) - 1)])
    {
      q.value := q.value - 1;
      assert Semaphores(semaphores) == old(Semaphores(semaphores))[g := q.View()];
    }

    method LetGo(q: CountedSemaphore, ghost g: nat)
      requires Valid() && g < |semaphores| && semaphores[g] == q
      modifies q`owners
      ensures Valid() && State() == old(State()).(semaphores := DropOwner(old(State()).semaphores, g))
    {
      q.Release();
      assert Semaphores(semaphores) == old(Semaphores(semaphores))[g := q.View()];
    }

    /** The thread object lets go of its semaphore. */
    method DestroyStep(w: WorkerThread, ghost i: nat)
      requires Valid() && i < |workers| && workers[i] == w && CanStep(State(), i) && w.pc == Exited
      modifies w.semaphore, w
      ensures Valid() && State() == WorkerStep(old(State()), i)
    {
      LetGo(w.semaphore, w.generation);
      hide Workers, Semaphores, DropOwner;
      MovePast(w, i, Destroyed);
    }

    method MovePast(w: WorkerThread, ghost i: nat, pc: Pc)
      requires Valid() && i < |workers| && workers[i] == w
      modifies w`pc
      ensures Valid() && State() == SetWorker(old(State()), i, old(w.View()).(pc := pc))
    {
      w.pc := pc;
      assert Workers(workers) == old(Workers(workers))[i := w.View()];
    }
  }

  /** The three parts of Replace. */
  function Retired(s: State): State
    requires s.semaphores != []
  {
    Broadcast(s.(workers := AbortThreads(s.workers, s.threads), told := s.told + Published(s.workers, s.threads)))
  }

  function Renewed(s: State, n: nat): State
    requires s.semaphores != []
  {
    s.(semaphores := DropOwner(s.semaphores, s.Current()) + [Semaphore(0, n, 1)],
       concurrent := n, schedule := 0, threads := [])
  }

  function Staffed(s: State, n: nat): State
    requires s.semaphores != []
  {
    var q := s.semaphores[s.Current()];
    s.(semaphores := s.semaphores[s.Current() := q.(owners := q.owners + n)],
       threads := Range(|s.workers|, n),
       workers := s.workers + NewWorkers(s.Current(), n))
  }

  lemma ReplaceInParts(s: State, n: nat)
    requires s.semaphores != []
    ensures Staffed(Renewed(Retired(s), n), n) == Replace(s, n)
  {
    var r := Renewed(Retired(s), n);
    assert Staffed(r, n).semaphores == Replace(s, n).semaphores;
  }

  lemma AbortNone(ws: seq<Worker>)
    ensures AbortThreads(ws, []) == ws && Published(ws, []) == {}
  {
  }

  lemma AbortMore(ws: seq<Worker>, ids: seq<nat>, i: nat)
    requires i < |ws|
    ensures AbortThreads(AbortThreads(ws, ids), [i]) == AbortThreads(ws, ids + [i])
    ensures Published(AbortThreads(ws, ids), [i]) + Published(ws, ids) == Published(ws, ids + [i])
  {
    PublishedGrows(ws, ids, i);
    PublishedGrows(AbortThreads(ws, ids), [], i);
    assert [] + [i] == [i];
  }

  lemma PublishedGrows(ws: seq<Worker>, ids: seq<nat>, i: nat)
    requires i < |ws|
    ensures Published(ws, ids + [i]) == Published(ws, ids) + if ws[i].task.Some? then {ws[i].task.value} else {}
  {
  }

  lemma AutodeletedGrows(queue: seq<Element>, e: Element)
    ensures Autodeleted(queue + [e]) == Autodeleted(queue) + if e.autodelete then {e.task} else {}
  {
  }
}
