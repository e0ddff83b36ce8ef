/** How many tokens every call leaves, and that they are enough: outside batch mode as many
    threads are working, awake or about to be woken as there are tasks for, up to
    m_concurrentThreads. */
module PoolTokens {
  import opened Basics
  import opened PoolModel
  import opened PoolCounting
  import opened Tallies
  import opened PoolInvariant
  import opened PoolLedger
  import opened PoolTheorems

  function Tokens(s: State): nat
    requires s.semaphores != []
  {
    s.semaphores[s.Current()].value
  }

  /** The threads that work, are on their way to work or will be let through Wait(). */
  ghost function Ready(s: State): int
    requires s.semaphores != []
  {
    Tokens(s) + Count(s.workers, Awake(s.Current())) + s.workingThreads
  }

  /** There is a thread for every queued task, or all of them are ready. */
  ghost predicate Enough(s: State)
    requires s.semaphores != []
  {
    s.batching || |s.queue| <= Ready(s) || s.concurrent <= Ready(s)
  }

  // ---------------------------------------------------------------- the value exactly

  function Least(a: int, b: int): (r: int)
    ensures r <= a && r <= b && (r == a || r == b)
  {
    if a < b then a else b
  }

  lemma PostsExactly(s: State, n: nat)
    requires Machine(s)
    ensures PostCurrent(s, n).semaphores != [] && Tokens(PostCurrent(s, n)) == Least(s.concurrent, Tokens(s) + n)
  {
    Posts(s, n);
  }

  lemma SizeOf(n: int)
    requires -INT_MAX <= n <= INT_MAX
    ensures SizeT(n) == if n < 0 then n + 0x1_0000_0000_0000_0000 else n
  {
  }

  /** AwakeNeeded() posts once for each queued task, at most once for each thread that does
      not work; with more working threads than m_concurrentThreads, once for each task. */
  lemma AwakesExactly(s: State)
    requires Machine(s)
    ensures AwakeNeeded(s).semaphores != []
    ensures s.workingThreads <= INT_MAX ==>
      Tokens(AwakeNeeded(s))
      == Least(s.concurrent, Tokens(s) + if s.workingThreads <= s.concurrent
                                         then Least(|s.queue|, s.concurrent - s.workingThreads) else |s.queue|)
  {
    var k := Min(|s.queue|, SizeT(s.concurrent - s.workingThreads));
    SectionFits(s);
    if s.workingThreads <= INT_MAX { SizeOf(s.concurrent - s.workingThreads); }
    PostsExactly(s, k);
    assert AwakeNeeded(s) == PostCurrent(s, k);
    hide Machine, AwakeNeeded;
  }

  lemma SectionFits(s: State)
    requires Machine(s)
    ensures s.semaphores != [] && 1 <= s.concurrent <= INT_MAX && 0 <= s.workingThreads
  {
  }

  // -------------------------------------------------------------------- enough of them

  lemma AwakesEnough(s: State)
    requires Machine(s)
    ensures AwakeNeeded(s).semaphores != [] && Enough(AwakeNeeded(s))
  {
    AwakesExactly(s);
    SectionFits(s);
    hide Machine;
    if s.workingThreads <= INT_MAX { hide AwakeNeeded; AwakeKeeps(s); }
  }

  lemma AwakeKeeps(s: State)
    requires s.semaphores != []
    ensures var t := AwakeNeeded(s);
      && t.workers == s.workers && t.queue == s.queue && t.concurrent == s.concurrent && t.batching == s.batching
      && t.workingThreads == s.workingThreads && t.Current() == s.Current()
  {
  }

  lemma SettleEnough(d: State)
    requires Machine(d)
    ensures Settle(d).semaphores != []
    ensures d.batching || |d.queue| <= Ready(d) + 1 || d.concurrent <= Ready(d) + 1 ==> Enough(Settle(d))
  {
    Settles(d);
    if d.workingThreads <= 0 && d.queue == [] {
      assert Settle(d).queue == [] by { hide Machine; }
    } else {
      PostsExactly(d, 1);
      hide Machine;
    }
  }

  /** A step that leaves no fewer threads ready, and no more tasks. */
  lemma StaysEnough(s: State, t: State)
    requires s.semaphores != [] && t.semaphores != [] && Enough(s) && Ready(s) <= Ready(t)
    requires t.batching == s.batching && |t.queue| <= |s.queue| && t.concurrent == s.concurrent
    ensures Enough(t)
  {
  }

  lemma LocalReady(s: State, i: nat)
    requires CanStep(s, i) && !Departing(s, i)
    ensures var t := WorkerStep(s, i);
      && t.semaphores != [] && t.batching == s.batching && |t.queue| <= |s.queue| && t.concurrent == s.concurrent
      && |t.semaphores| == |s.semaphores| && i < |t.workers| && t.workers == s.workers[i := t.workers[i]]
  {
  }

  /** Whoever takes a token is awake, and who was awake works. */
  lemma LocalTokens(s: State, i: nat)
    requires Machine(s) && CanStep(s, i) && !Departing(s, i)
    ensures var t := WorkerStep(s, i);
      && t.semaphores != [] && i < |t.workers|
      && Tokens(t) == Tokens(s) - One(s.workers[i].pc == AtWait && s.workers[i].generation == s.Current())
      && t.workingThreads == s.workingThreads + One(s.workers[i].pc == CallWorking)
      && One(Is(t.workers[i], Awake(s.Current()))) + One(s.workers[i].pc == CallWorking)
         >= One(Is(s.workers[i], Awake(s.Current())))
            + One(s.workers[i].pc == AtWait && s.workers[i].generation == s.Current())
  {
    assert Sane(s.workers[i], s.Current());
  }

  lemma LocalEnough(s: State, i: nat)
    requires s.semaphores != [] && Machine(s) && Enough(s) && CanStep(s, i) && !Departing(s, i)
    ensures WorkerStep(s, i).semaphores != [] && Enough(WorkerStep(s, i))
  {
    var t := WorkerStep(s, i);
    LocalReady(s, i);
    LocalTokens(s, i);
    hide Machine, WorkerStep, Is;
    CountUpdate(s.workers, i, t.workers[i], Awake(s.Current()));
    StaysEnough(s, t);
  }

  lemma DepartedReady(s: State, i: nat)
    requires s.semaphores != [] && Departing(s, i)
    ensures var d := Departed(s, i);
      && d.semaphores == s.semaphores && Ready(d) == Ready(s) - 1
      && d.batching == s.batching && d.queue == s.queue && d.concurrent == s.concurrent
  {
    CountUpdate(s.workers, i, Departed(s, i).workers[i], Awake(s.Current()));
  }

  /** WaitingThread() answers false only when there is nothing to do. */
  lemma RefusedIsIdle(s: State, i: nat)
    requires CanStep(s, i) && s.workers[i].pc == CallWaiting
    requires !WaitingThread(SetWorker(s, i, s.workers[i].(pc := AtWait))).1
    ensures WorkerStep(s, i).semaphores != [] && WorkerStep(s, i).queue == []
  {
    hide AbortThreads, NewWorkers, PostMany;
  }

  lemma DepartEnough(s: State, i: nat)
    requires s.semaphores != [] && Machine(s) && Enough(s) && CanStep(s, i) && Departing(s, i)
    ensures WorkerStep(s, i).semaphores != [] && Enough(WorkerStep(s, i))
  {
    var d := Departed(s, i);
    Departs(s, i);
    DepartedReady(s, i);
    hide Machine, Settle, Ready;
    SettleEnough(d);
    if s.workers[i].pc == CallWaiting && !WaitingThread(SetWorker(s, i, s.workers[i].(pc := AtWait))).1 {
      RefusedIsIdle(s, i);
    } else {
      WaitingIsSettle(s, i);
    }
  }

  lemma ReplaceEnough(s: State, n: nat)
    requires Machine(s) && s.workingThreads == 0 && 1 <= n <= INT_MAX
    ensures Replace(s, n).semaphores != [] && Enough(Replace(s, n))
  {
    ReplaceShape(s, n);
    ReplacedCount(s, Replace(s, n), n, Awake(|s.semaphores|));
  }

  lemma OwnerEnough(s: State, step: Step)
    requires s.semaphores != [] && Machine(s) && Enough(s) && Enabled(s, step) && !step.Run?
    ensures Next(s, step).semaphores != [] && Enough(Next(s, step))
  {
    match step
    case Set(n) => if n != s.concurrent && s.workingThreads == 0 { ReplaceEnough(s, n); }
    case Add(task, autodelete) => if task.Some? { AddEnough(s, task.value, autodelete); }
    case End =>
      assert Machine(s.(batching := false));
      AwakesEnough(s.(batching := false));
    case _ =>
  }

  lemma AddEnough(s: State, t: TaskId, autodelete: bool)
    requires s.semaphores != [] && Machine(s) && Enough(s)
    ensures AddTask(s, Some(t), autodelete).semaphores != [] && Enough(AddTask(s, Some(t), autodelete))
  {
    var s1 := Pushed(s, t, autodelete);
    assert Machine(s1);
    if !s1.batching && s1.workingThreads < s1.concurrent { AwakesEnough(s1); }
  }

  lemma EnoughNext(s: State, step: Step)
    requires s.semaphores != [] && Machine(s) && Enough(s) && Enabled(s, step)
    ensures Next(s, step).semaphores != [] && Enough(Next(s, step))
  {
    hide Machine, Enough;
    if !step.Run? { OwnerEnough(s, step); }
    else if Departing(s, step.worker) { DepartEnough(s, step.worker); }
    else { LocalEnough(s, step.worker); }
  }

  lemma {:induction false} EnoughInRuns(n: nat, steps: seq<Step>)
    requires After(n, steps).Some?
    ensures After(n, steps).value.semaphores != [] && Enough(After(n, steps).value)
  {
    if steps == [] {
      InitFresh(n);
    } else {
      var before := steps[..|steps| - 1];
      EnoughInRuns(n, before);
      RunInv(n, before);
      hide Machine, Ledger, Enough, Next;
      EnoughNext(After(n, before).value, steps[|steps| - 1]);
    }
  }

  /** In every reachable state outside batch mode there are as many threads that work, are
      on their way to work or have a token to take, as there are queued tasks; or
      m_concurrentThreads of them. */
  lemma EnoughThreads(n: nat, steps: seq<Step>)
    requires After(n, steps).Some? && !After(n, steps).value.batching
    ensures var s := After(n, steps).value;
      && s.semaphores != []
      && Least(|s.queue|, s.concurrent)
         <= s.semaphores[s.Current()].value + Count(s.workers, Awake(s.Current())) + s.workingThreads
  {
    EnoughInRuns(n, steps);
  }

  // -------------------------------------------------------------- every call's tokens

  lemma AddTokens(s: State, t: TaskId, autodelete: bool)
    requires Machine(s)
    ensures var u := AddTask(s, Some(t), autodelete);
      && u.semaphores != []
      && Tokens(u) == if s.batching || s.workingThreads >= s.concurrent then Tokens(s)
                      else Least(s.concurrent, Tokens(s) + Least(|s.queue| + 1, s.concurrent - s.workingThreads))
  {
    var s1 := Pushed(s, t, autodelete);
    assert Machine(s1);
    SectionFits(s);
    AwakesExactly(s1);
    hide Machine, AwakeNeeded;
  }

  lemma SettleTokens(d: State)
    requires Machine(d)
    ensures var u := Settle(d);
      |u.semaphores| == |d.semaphores| > 0 ==>
        Tokens(u) == if d.workingThreads > 0 || d.queue != [] then Least(d.concurrent, Tokens(d) + 1) else Tokens(d)
  {
    if d.workingThreads <= 0 && d.queue == [] {
      assert d.workingThreads == 0;
      hide Machine, AbortThreads, NewWorkers, PostMany;
    } else {
      PostsExactly(d, 1);
      hide Machine;
    }
  }

  lemma DepartTokens(s: State, i: nat)
    requires Machine(s) && CanStep(s, i) && Departing(s, i)
    ensures var u := WorkerStep(s, i);
      |u.semaphores| == |s.semaphores| > 0 ==>
        Tokens(u) == if s.workingThreads > 1 || s.queue != [] then Least(s.concurrent, Tokens(s) + 1) else Tokens(s)
  {
    var d := Departed(s, i);
    Departs(s, i);
    SettleTokens(d);
    DepartIsSettle(s, i);
    hide Machine, Settle, WorkerStep;
  }

  lemma DepartIsSettle(s: State, i: nat)
    requires CanStep(s, i) && Departing(s, i)
    ensures WorkerStep(s, i).semaphores == Settle(Departed(s, i)).semaphores
  {
  }

  lemma EndTokens(s: State)
    requires Machine(s) && s.workingThreads <= INT_MAX
    ensures BatchEnd(s).semaphores != []
    ensures Tokens(BatchEnd(s))
         == Least(s.concurrent, Tokens(s) + if s.workingThreads <= s.concurrent
                                            then Least(|s.queue|, s.concurrent - s.workingThreads) else |s.queue|)
  {
    assert Machine(s.(batching := false));
    AwakesExactly(s.(batching := false));
    hide Machine, AwakeNeeded;
  }

  lemma OtherTokens(s: State, step: Step)
    requires s.semaphores != [] && Enabled(s, step)
    requires step.AbortAll? || step.Begin? || step.Set? || (step.Add? && step.task == None)
    ensures |Next(s, step).semaphores| == |s.semaphores| ==> Tokens(Next(s, step)) == Tokens(s)
  {
    hide AbortThreads, NewWorkers, PostMany;
  }

  lemma RunTokens(s: State, i: nat)
    requires Machine(s) && CanStep(s, i)
    ensures var u := WorkerStep(s, i);
      |u.semaphores| == |s.semaphores| > 0 ==>
      Tokens(u) == if s.workers[i].pc == AtWait && s.workers[i].generation == s.Current() then Tokens(s) - 1
                   else if Departing(s, i) && (s.workingThreads > 1 || s.queue != [])
                   then Least(s.concurrent, Tokens(s) + 1) else Tokens(s)
  {
    if Departing(s, i) { DepartTokens(s, i); } else { LocalTokens(s, i); }
    hide Machine, WorkerStep;
  }

  /** What becomes of the value of the current semaphore with every call. */
  function TokensDue(s: State, step: Step): int
    requires s.semaphores != [] && Enabled(s, step)
  {
    var free := s.concurrent - s.workingThreads;
    match step
    case Add(task, _) =>
      if task == None || s.batching || free <= 0 then Tokens(s)
      else Least(s.concurrent, Tokens(s) + Least(|s.queue| + 1, free))
    case End => Least(s.concurrent, Tokens(s) + if free >= 0 then Least(|s.queue|, free) else |s.queue|)
    case Run(i) =>
      if s.workers[i].pc == AtWait && s.workers[i].generation == s.Current() then Tokens(s) - 1
      else if Departing(s, i) && (s.workingThreads > 1 || s.queue != []) then Least(s.concurrent, Tokens(s) + 1)
      else Tokens(s)
    case _ => Tokens(s)
  }

  lemma StateTokens(s: State, step: Step)
    requires s.semaphores != [] && Machine(s) && Enabled(s, step) && s.workingThreads <= INT_MAX
    requires |Next(s, step).semaphores| == |s.semaphores|
    ensures Tokens(Next(s, step)) == TokensDue(s, step)
  {
    hide Machine, AddTask, BatchEnd, WorkerStep, SetConcurrentThreads, AbortAllTasks, Departing;
    match step
    case Add(task, autodelete) => if task.Some? { AddTokens(s, task.value, autodelete); } else { OtherTokens(s, step); }
    case End => EndTokens(s);
    case Run(i) => RunTokens(s, i);
    case _ => OtherTokens(s, step);
  }

  /** Every call that does not make a new semaphore leaves exactly that many tokens. */
  lemma TokensExactly(n: nat, steps: seq<Step>, step: Step)
    requires After(n, steps).Some? && Enabled(After(n, steps).value, step)
    requires |Next(After(n, steps).value, step).semaphores| == |After(n, steps).value.semaphores|
    requires After(n, steps).value.workingThreads <= INT_MAX
    ensures After(n, steps).value.semaphores != []
    ensures Tokens(Next(After(n, steps).value, step)) == TokensDue(After(n, steps).value, step)
  {
    RunInv(n, steps);
    hide Machine, Ledger, Next, TokensDue, Tokens;
    StateTokens(After(n, steps).value, step);
  }

  // ------------------------------------------------------------- the answer to a worker

  lemma AnswerAborts(s: State, i: nat)
    requires Machine(s) && CanStep(s, i) && s.workers[i].pc == CallWaiting
    ensures var u := WorkerStep(s, i);
      && i < |u.workers| && u.workers[i].pc == (if u.workers[i].aborted then Leaving else AtWait)
      && (u.workers[i].aborted <==> |u.semaphores| > |s.semaphores|)
  {
    if !WaitingThread(SetWorker(s, i, s.workers[i].(pc := AtWait))).1 {
      Refused(s, i);
      RefusedGrows(s, i);
    } else {
      WaitingIsSettle(s, i);
      assert Sane(s.workers[i], s.Current());
      AnswerKeeps(s, i);
    }
  }

  lemma RefusedGrows(s: State, i: nat)
    requires CanStep(s, i) && s.workers[i].pc == CallWaiting && Machine(s)
    requires !WaitingThread(SetWorker(s, i, s.workers[i].(pc := AtWait))).1
    ensures |WorkerStep(s, i).semaphores| > |s.semaphores|
    ensures i < |WorkerStep(s, i).workers|
    ensures WorkerStep(s, i).workers[i] == Settle(Departed(s, i)).workers[i].(pc := Leaving)
  {
    Departs(s, i);
    hide AbortThreads, NewWorkers, PostMany;
  }

  lemma AnswerKeeps(s: State, i: nat)
    requires CanStep(s, i) && s.workers[i].pc == CallWaiting
    requires WaitingThread(SetWorker(s, i, s.workers[i].(pc := AtWait))).1
    ensures var u := Settle(Departed(s, i));
      |u.semaphores| == |s.semaphores| && i < |u.workers| && u.workers[i] == s.workers[i].(pc := AtWait)
  {
    hide AbortThreads, NewWorkers, PostMany;
  }

  /** A worker goes on to Wait() after WaitingThread() unless that call has replaced it. */
  lemma ReplacedCallerLeaves(n: nat, steps: seq<Step>, i: nat)
    requires After(n, steps).Some? && CanStep(After(n, steps).value, i)
    requires After(n, steps).value.workers[i].pc == CallWaiting
    ensures var s := After(n, steps).value; var u := WorkerStep(s, i);
      && i < |u.workers| && u.workers[i].pc == (if u.workers[i].aborted then Leaving else AtWait)
      && (u.workers[i].aborted <==> |u.semaphores| > |s.semaphores|)
  {
    RunInv(n, steps);
    AnswerAborts(After(n, steps).value, i);
  }

  // ------------------------------------------------------------------------ batch mode

  /** Has a batch begun that has not been ended? */
  predicate BatchOpen(steps: seq<Step>) {
    steps != [] && (steps[|steps| - 1].Begin? || (!steps[|steps| - 1].End? && BatchOpen(steps[..|steps| - 1])))
  }

  lemma SettleBatch(s: State)
    requires s.semaphores != []
    ensures Settle(s).batching == s.batching
  {
    hide AbortThreads, NewWorkers, PostMany, DropOwner;
  }

  lemma RunBatch(s: State, i: nat)
    requires CanStep(s, i)
    ensures WorkerStep(s, i).batching == s.batching
  {
    if Departing(s, i) {
      SettleBatch(Departed(s, i));
      hide Settle;
    } else {
      LocalReady(s, i);
      hide WorkerStep;
    }
  }

  lemma BatchKept(s: State, step: Step)
    requires Enabled(s, step)
    ensures Next(s, step).batching == if step.Begin? then true else if step.End? then false else s.batching
  {
    if step.Run? { RunBatch(s, step.worker); }
    hide AbortThreads, NewWorkers, PostMany, DropOwner, WorkerStep;
  }

  /** The pool is in batch mode exactly from BatchBegin() to the next BatchEnd(). */
  lemma {:induction false} BatchExactly(n: nat, steps: seq<Step>)
    requires After(n, steps).Some?
    ensures After(n, steps).value.batching == BatchOpen(steps)
  {
    if steps == [] {
      InitFresh(n);
    } else {
      BatchExactly(n, steps[..|steps| - 1]);
      BatchKept(After(n, steps[..|steps| - 1]).value, steps[|steps| - 1]);
    }
  }
}
