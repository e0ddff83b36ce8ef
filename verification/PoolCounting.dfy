/** Counting the workers that are in a given situation. */
module PoolCounting {
  import opened PoolModel
  import opened Tallies

  datatype Situation =
    | InSection              // between WorkingThread() and WaitingThread()
    | Waiting(gen: nat)      // at Wait() on that semaphore
    | Owning(gen: nat)       // still has its copy of that CountedPtr
    | Awake(gen: nat)        // past Wait() (or just started), before WorkingThread()
    | Holds(task: TaskId)    // has fetched the task and not executed it
    | Clearing(task: TaskId) // has executed the task and not let go of it
    | Finishing              // has executed a task and not yet reported it
    | Member(gen: nat)       // made with that semaphore
    | Straying(gen: nat)     // in the section, of a generation before that

  predicate AtWork(w: Worker) {
    || w.pc in {CallWaiting, Fetch, Publish, RunTest, Execute, Clear, NotifyEnded}
    || (w.pc in {LoopTest, Leaving} && w.working)
  }

  predicate Is(w: Worker, k: Situation) {
    match k
    case InSection => AtWork(w)
    case Waiting(g) => w.generation == g && w.pc == AtWait
    case Owning(g) => w.generation == g && w.pc != Destroyed
    case Awake(g) => w.generation == g && (w.pc in {AbortTest, CallWorking} || (w.pc == LoopTest && !w.working))
    case Holds(t) => w.pc in {Publish, RunTest, Execute} && w.element.Some? && w.element.value.task == t
    case Clearing(t) => w.pc == Clear && w.element.Some? && w.element.value.task == t
    case Finishing => w.pc in {Clear, NotifyEnded}
    case Member(g) => w.generation == g
    case Straying(g) => w.generation < g && AtWork(w)
  }

  function Situated(k: Situation): (p: Worker -> bool)
    ensures forall w :: p(w) == Is(w, k)
  {
    (w: Worker) => Is(w, k)
  }

  function Count(ws: seq<Worker>, k: Situation): nat { Tally(ws, Situated(k)) }

  /** Changing one worker moves it from its old situation to its new one. */
  lemma CountUpdate(ws: seq<Worker>, i: nat, w: Worker, k: Situation)
    requires i < |ws|
    ensures Count(ws[i := w], k) + One(Is(ws[i], k)) == Count(ws, k) + One(Is(w, k))
  {
    TallyUpdate(ws, i, w, Situated(k));
  }

  lemma CountSome(ws: seq<Worker>, i: nat, k: Situation)
    requires i < |ws| && Is(ws[i], k)
    ensures Count(ws, k) > 0
  {
    TallySome(ws, i, Situated(k));
  }

  lemma CountWitness(ws: seq<Worker>, k: Situation) returns (i: nat)
    requires Count(ws, k) > 0
    ensures i < |ws| && Is(ws[i], k)
  {
    i := TallyWitness(ws, Situated(k));
  }

  lemma CountBound(ws: seq<Worker>, lo: nat, k: Situation)
    requires lo <= |ws|
    requires forall i :: 0 <= i < lo ==> !Is(ws[i], k)
    ensures Count(ws, k) <= |ws| - lo
  {
    TallyBound(ws, lo, Situated(k));
  }

  /** Abort() changes nobody's situation. */
  lemma CountAborted(ws: seq<Worker>, threads: seq<nat>, k: Situation)
    ensures Count(AbortThreads(ws, threads), k) == Count(ws, k)
  {
    TallySame(AbortThreads(ws, threads), ws, Situated(k));
  }

  lemma CountWithNew(ws: seq<Worker>, g: nat, n: nat, k: Situation)
    ensures Count(ws + NewWorkers(g, n), k) == Count(ws, k) + n * One(Is(NewWorker(g), k))
  {
    NewWorkersAt(g, n);
    TallyMany(ws, NewWorkers(g, n), NewWorker(g), Situated(k));
  }

  lemma {:induction false} NewWorkersAt(g: nat, n: nat)
    ensures forall i :: 0 <= i < n ==> NewWorkers(g, n)[i] == NewWorker(g)
  {
    if n > 0 { NewWorkersAt(g, n - 1); }
  }

  /** Repeated Post() stops at the maximum. */
  lemma {:induction false} PostManyValue(q: Semaphore, n: nat)
    requires q.max != 0 ==> q.value <= q.max
    ensures PostMany(q, n).max == q.max && PostMany(q, n).owners == q.owners
    ensures PostMany(q, n).value == if q.max == 0 then q.value + n else Min(q.max, q.value + n)
  {
    if n > 0 { PostManyValue(q, n - 1); }
  }
}
