/** The values of cbThreadPool's protocol: worker threads, counted semaphores, the
    pool's own fields, and every atomic step as a function from state to state. The
    class in ThreadPool.dfy is proved to compute exactly these functions; the
    properties of whole runs are proved about them in PoolTheorems.dfy. */
module PoolModel {
  import opened Basics

  type TaskId = nat

  /** The thread counts are C++ ints. */
  const INT_MAX := 0x7fff_ffff

  /** cbThreadedTaskElement: a task and whether the pool has to delete it. */
  datatype Element = Element(task: TaskId, autodelete: bool)

  /** Where a worker thread is inside cbWorkerThread::Entry. A step is a stretch of the
      loop body that touches shared state at most once. */
  datatype Pc =
    | LoopTest      // while (!Aborted())
    | CallWaiting   // if (!m_pPool->WaitingThread()) break;
    | AtWait        // m_semaphore->Wait();
    | AbortTest     // if (Aborted()) break;
    | CallWorking   // m_pPool->WorkingThread(); workingThread = true;
    | Fetch         // element = m_pPool->GetNextTask();
    | Publish       // m_pTask = element.task; if (!m_pTask) continue;
    | RunTest       // if (!Aborted())
    | Execute       // m_pTask->Execute();
    | Clear         // m_pTask = nullptr; element.Delete();
    | NotifyEnded   // m_pPool->TaskDone(this);
    | Leaving       // if (workingThread) m_pPool->WaitingThread();
    | Exited        // Entry() has returned
    | Destroyed     // the detached thread object is gone

  /** `generation` names the semaphore the thread was created with. */
  datatype Worker = Worker(
    generation: nat,
    aborted: bool,
    pc: Pc,
    working: bool,
    element: Option<Element>,
    task: Option<TaskId>)

  /** wxSemaphore behind a CountedPtr: a maximum of 0 means "no maximum". */
  datatype Semaphore = Semaphore(value: nat, max: nat, owners: nat) {
    function Posted(): Semaphore {
      if max != 0 && value >= max then this else this.(value := value + 1)
    }
  }

  /** What has happened so far. Ended and AllDone are the events sent to the owner. */
  datatype Event =
    | Added(task: TaskId)
    | Fetched(task: TaskId)
    | Executed(task: TaskId)
    | Released(task: TaskId)
    | Dropped(task: TaskId)
    | Discarded(task: TaskId)
    | Ended
    | AllDone

  datatype State = State(
    concurrent: int,
    schedule: nat,
    workingThreads: int,
    taskAdded: bool,
    batching: bool,
    queue: seq<Element>,
    threads: seq<nat>,
    workers: seq<Worker>,
    semaphores: seq<Semaphore>,
    told: set<TaskId>,      // tasks on which Abort() has been called
    entrusted: set<TaskId>, // tasks added with autodelete
    deleted: set<TaskId>,   // tasks the pool has deleted
    log: seq<Event>)
  {
    function Current(): int { |semaphores| - 1 }

    /** GetConcurrentThreads */
    function GetConcurrentThreads(): int { if schedule != 0 then schedule else concurrent }
  }

  // ---------------------------------------------------------------- semaphores

  /** static_cast<std::size_t> of a (possibly negative) int. */
  function SizeT(n: int): (r: nat)
    ensures 0 <= n <= INT_MAX ==> r == n
    ensures n != 0 && -INT_MAX <= n <= INT_MAX ==> r > 0
  {
    n % 0x1_0000_0000_0000_0000
  }

  function Min(a: nat, b: nat): nat { if a < b then a else b }

  function PostMany(q: Semaphore, n: nat): Semaphore {
    if n == 0 then q else PostMany(q, n - 1).Posted()
  }

  /** n times m_semaphore->Post(), on the pool's current semaphore. */
  function PostCurrent(s: State, n: nat): State
    requires s.semaphores != []
  {
    s.(semaphores := s.semaphores[s.Current() := PostMany(s.semaphores[s.Current()], n)])
  }

  function Broadcast(s: State): State
    requires s.semaphores != []
  {
    if s.concurrent == -1 then s else PostCurrent(s, SizeT(s.concurrent - s.workingThreads))
  }

  function AwakeNeeded(s: State): State
    requires s.semaphores != []
  {
    if s.concurrent == -1 then s
    else PostCurrent(s, Min(|s.queue|, SizeT(s.concurrent - s.workingThreads)))
  }

  // ------------------------------------------------- changing the number of threads

  /** Abort() on every thread in `threads`. */
  function AbortThreads(workers: seq<Worker>, threads: seq<nat>): (r: seq<Worker>)
    ensures |r| == |workers|
    ensures forall i :: 0 <= i < |r| ==> r[i] == workers[i].(aborted := workers[i].aborted || i in threads)
  {
    seq(|workers|, i requires 0 <= i < |workers| => workers[i].(aborted := workers[i].aborted || i in threads))
  }

  /** The tasks that AbortTask() on every thread of m_threads reaches through m_pTask. */
  function Published(workers: seq<Worker>, threads: seq<nat>): set<TaskId> {
    set i | i in threads && i < |workers| && workers[i].task.Some? :: workers[i].task.value
  }

  /** A thread as its constructor leaves it, running from the top of Entry(). */
  function NewWorker(generation: nat): Worker {
    Worker(generation, false, LoopTest, false, None, None)
  }

  function NewWorkers(generation: nat, n: nat): (r: seq<Worker>)
    ensures |r| == n
  {
    if n == 0 then [] else NewWorkers(generation, n - 1) + [NewWorker(generation)]
  }

  /** The pool's CountedPtr lets go of one semaphore. */
  function DropOwner(qs: seq<Semaphore>, g: nat): seq<Semaphore>
    requires g < |qs|
  {
    qs[g := qs[g].(owners := if qs[g].owners > 0 then qs[g].owners - 1 else 0)]
  }

  /** A whole generation of workers is told to die and is replaced by n new ones. */
  function Replace(s: State, n: nat): State
    requires s.semaphores != []
  {
    var s1 := Broadcast(s.(workers := AbortThreads(s.workers, s.threads),
                           told := s.told + Published(s.workers, s.threads)));
    s1.(semaphores := DropOwner(s1.semaphores, s1.Current()) + [Semaphore(0, n, 1 + n)],
        concurrent := n,
        schedule := 0,
        threads := Range(|s1.workers|, n),
        workers := s1.workers + NewWorkers(|s1.semaphores|, n))
  }

  /** _SetConcurrentThreads */
  function SetLocked(s: State, n: nat): State
    requires s.semaphores != []
  {
    if s.workingThreads == 0 then Replace(s, n) else s.(schedule := n)
  }

  /** SetConcurrentThreads */
  function SetConcurrentThreads(s: State, n: nat): State
    requires s.semaphores != []
  {
    if n == s.concurrent then s.(schedule := 0) else SetLocked(s, n)
  }

  // ------------------------------------------------------------ the owner's calls

  /** m_tasksQueue.push_back, m_taskAdded = true */
  function Pushed(s: State, t: TaskId, autodelete: bool): State {
    s.(queue := s.queue + [Element(t, autodelete)], taskAdded := true,
       entrusted := s.entrusted + if autodelete then {t} else {},
       log := s.log + [Added(t)])
  }

  function AddTask(s: State, task: Option<TaskId>, autodelete: bool): State
    requires s.semaphores != []
  {
    if task.None? then s else
    var s1 := Pushed(s, task.value, autodelete);
    if !s1.batching && s1.workingThreads < s1.concurrent then AwakeNeeded(s1) else s1
  }

  function DiscardEvents(queue: seq<Element>): seq<Event> {
    if queue == [] then [] else DiscardEvents(queue[..|queue|-1]) + [Discarded(queue[|queue|-1].task)]
  }

  function Autodeleted(queue: seq<Element>): set<TaskId> {
    set e | e in queue && e.autodelete :: e.task
  }

  function AbortAllTasks(s: State): State {
    s.(queue := [], told := s.told + Published(s.workers, s.threads), deleted := s.deleted + Autodeleted(s.queue),
       log := s.log + DiscardEvents(s.queue))
  }

  function BatchBegin(s: State): State { s.(batching := true) }

  function BatchEnd(s: State): State
    requires s.semaphores != []
  {
    AwakeNeeded(s.(batching := false))
  }

  // --------------------------------------------------------- the workers' calls

  function GetNextTask(s: State): (State, Option<Element>) {
    if s.queue == [] then (s, None)
    else (s.(queue := s.queue[1..], log := s.log + [Fetched(s.queue[0].task)]), Some(s.queue[0]))
  }

  function WorkingThread(s: State): State { s.(workingThreads := s.workingThreads + 1) }

  /** The ALLDONE event, when one is due. */
  function Announced(s: State): State {
    if s.taskAdded then s.(taskAdded := false, log := s.log + [AllDone]) else s
  }

  /** What the pool does once a worker has left the working section: report that all is
      done and apply a pending thread count, or give the worker its token back. */
  function Settle(s: State): State
    requires s.semaphores != []
  {
    if s.workingThreads <= 0 && s.queue == [] then
      var s1 := Announced(s);
      if s1.schedule != 0 then SetLocked(s1, s1.schedule) else s1
    else PostCurrent(s, 1)
  }

  /** WaitingThread: false tells the caller to abort. */
  function WaitingThread(s: State): (State, bool)
    requires s.semaphores != []
  {
    var s1 := s.(workingThreads := s.workingThreads - 1);
    (Settle(s1), !(s1.workingThreads <= 0 && s1.queue == [] && s1.schedule != 0))
  }

  function SetWorker(s: State, i: nat, w: Worker): State
    requires i < |s.workers|
  {
    s.(workers := s.workers[i := w])
  }

  /** cbThreadedTaskElement::Delete, after the task has run. */
  function DeleteElement(s: State, e: Element): State {
    s.(log := s.log + [Released(e.task)], deleted := s.deleted + if e.autodelete then {e.task} else {})
  }

  /** A worker can always take its next step, except at Wait() on a semaphore whose value
      is 0, and when it is gone. */
  predicate CanStep(s: State, i: nat) {
    && i < |s.workers|
    && s.workers[i].generation < |s.semaphores|
    && s.workers[i].pc != Destroyed
    && (s.workers[i].pc == AtWait ==> s.semaphores[s.workers[i].generation].value > 0)
  }

  /** The next step of worker i through Entry(). */
  function WorkerStep(s: State, i: nat): State
    requires CanStep(s, i)
  {
    var w := s.workers[i];
    match w.pc
    case LoopTest =>
      SetWorker(s, i, if w.aborted then w.(pc := Leaving)
                      else if w.working then w.(working := false, pc := CallWaiting)
                      else w.(pc := AbortTest))
    case CallWaiting =>
      var (s1, proceed) := WaitingThread(SetWorker(s, i, w.(pc := AtWait)));
      assert |s1.workers| >= |s.workers|;
      if proceed then s1 else SetWorker(s1, i, s1.workers[i].(pc := Leaving))
    case AtWait =>
      var q := s.semaphores[w.generation];
      SetWorker(s.(semaphores := s.semaphores[w.generation := q.(value := q.value - 1)]), i, w.(pc := AbortTest))
    case AbortTest =>
      SetWorker(s, i, w.(pc := if w.aborted then Leaving else CallWorking))
    case CallWorking =>
      SetWorker(WorkingThread(s), i, w.(working := true, pc := Fetch))
    case Fetch =>
      var (s1, element) := GetNextTask(s);
      SetWorker(s1, i, w.(element := element, pc := Publish))
    case Publish =>
      if w.element.None? then SetWorker(s, i, w.(task := None, pc := LoopTest))
      else SetWorker(s, i, w.(task := Some(w.element.value.task), pc := RunTest))
    case RunTest =>
      if !w.aborted then SetWorker(s, i, w.(pc := Execute))
      else
        var s1 := if w.element.Some? then s.(log := s.log + [Dropped(w.element.value.task)]) else s;
        SetWorker(s1, i, w.(element := None, pc := LoopTest))
    case Execute =>
      var s1 := if w.element.Some? then s.(log := s.log + [Executed(w.element.value.task)]) else s;
      SetWorker(s1, i, w.(pc := Clear))
    case Clear =>
      var s1 := if w.element.None? then s else DeleteElement(s, w.element.value);
      SetWorker(s1, i, w.(element := None, task := None, pc := NotifyEnded))
    case NotifyEnded =>
      SetWorker(s.(log := s.log + [Ended]), i, w.(pc := LoopTest))
    case Leaving =>
      var s1 := SetWorker(s, i, w.(pc := Exited));
      if w.working then WaitingThread(s1).0 else s1
    case Exited =>
      SetWorker(s.(semaphores := DropOwner(s.semaphores, w.generation)), i, w.(pc := Destroyed))
  }

  // ------------------------------------------------------------------------ runs

  datatype Step =
    | Set(n: nat)
    | Add(task: Option<TaskId>, autodelete: bool)
    | AbortAll
    | Begin
    | End
    | Run(worker: nat)

  /** Thread counts are at least 1 (and an int), and a task is handed to the pool only once. */
  predicate Enabled(s: State, step: Step) {
    && s.semaphores != []
    && match step
       case Set(n) => 1 <= n <= INT_MAX
       case Add(task, _) => task.Some? ==> Added(task.value) !in s.log
       case Run(i) => CanStep(s, i)
       case _ => true
  }

  function Next(s: State, step: Step): State
    requires Enabled(s, step)
  {
    match step
    case Set(n) => SetConcurrentThreads(s, n)
    case Add(task, autodelete) => AddTask(s, task, autodelete)
    case AbortAll => AbortAllTasks(s)
    case Begin => BatchBegin(s)
    case End => BatchEnd(s)
    case Run(i) => WorkerStep(s, i)
  }

  /** The fields as the constructor's initialisers set them. */
  const UNSET := State(-1, 0, 0, false, false, [], [], [], [Semaphore(0, 0, 1)], {}, {}, {}, [])

  /** The pool as cbThreadPool(owner, id, n) leaves it. */
  function Init(n: nat): State { SetConcurrentThreads(UNSET, n) }

  /** The state after a run, or None when some step of it was not possible. */
  function After(n: nat, steps: seq<Step>): Option<State> {
    if steps == [] then (if 1 <= n <= INT_MAX then Some(Init(n)) else None)
    else match After(n, steps[..|steps|-1])
         case None => None
         case Some(s) => if Enabled(s, steps[|steps|-1]) then Some(Next(s, steps[|steps|-1])) else None
  }
}
