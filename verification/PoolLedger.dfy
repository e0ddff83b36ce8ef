/** What happens to every task: the second half of the pool's invariant, relating the
    queue, the workers and the log of everything that has happened. */
module PoolLedger {
  import opened Basics
  import opened PoolModel
  import opened PoolCounting
  import opened Tallies
  import opened PoolInvariant

  // ------------------------------------------------------------- reading the log

  function Occ(log: seq<Event>, e: Event): nat { multiset(log)[e] }

  function Queued(queue: seq<Element>, t: TaskId): nat {
    if queue == [] then 0 else Queued(queue[..|queue|-1], t) + One(queue[|queue|-1].task == t)
  }

  function Tasks(queue: seq<Element>): seq<TaskId> {
    if queue == [] then [] else Tasks(queue[..|queue|-1]) + [queue[|queue|-1].task]
  }

  function AddedTasks(log: seq<Event>): seq<TaskId> {
    if log == [] then [] else
    AddedTasks(log[..|log|-1]) + if log[|log|-1].Added? then [log[|log|-1].task] else []
  }

  /** The tasks taken from the queue, by a worker or by AbortAllTasks, in that order. */
  function TakenTasks(log: seq<Event>): seq<TaskId> {
    if log == [] then [] else
    TakenTasks(log[..|log|-1]) +
    if log[|log|-1].Fetched? || log[|log|-1].Discarded? then [log[|log|-1].task] else []
  }

  function NumExecuted(log: seq<Event>): nat {
    if log == [] then 0 else NumExecuted(log[..|log|-1]) + One(log[|log|-1].Executed?)
  }

  /** Was a task added after the last ALLDONE event? */
  predicate AddedSince(log: seq<Event>) {
    log != [] && !log[|log|-1].AllDone? && (log[|log|-1].Added? || AddedSince(log[..|log|-1]))
  }

  function Finished(log: seq<Event>, t: TaskId): nat {
    Occ(log, Executed(t)) + Occ(log, Dropped(t)) + Occ(log, Discarded(t))
  }

  /** Nothing is pending: what has been added has been finished, and reported. */
  ghost predicate Settled(log: seq<Event>) {
    && (forall t: TaskId :: Occ(log, Added(t)) == Finished(log, t))
    && NumExecuted(log) == Occ(log, Ended)
  }

  // ---------------------------------------------------------------- the invariant

  /** Every added task is in exactly one place. */
  ghost predicate Balanced(s: State) {
    forall t: TaskId :: InOnePlace(s, t)
  }

  ghost predicate InOnePlace(s: State, t: TaskId) {
    && Occ(s.log, Added(t)) <= 1
    && Occ(s.log, Added(t)) == Queued(s.queue, t) + Count(s.workers, Holds(t)) + Finished(s.log, t)
    && Occ(s.log, Executed(t)) == Count(s.workers, Clearing(t)) + Occ(s.log, Released(t))
  }

  ghost predicate Reported(s: State) {
    NumExecuted(s.log) == Occ(s.log, Ended) + Count(s.workers, Finishing)
  }

  ghost predicate Fifo(s: State) {
    AddedTasks(s.log) == TakenTasks(s.log) + Tasks(s.queue)
  }

  ghost predicate Memory(s: State) {
    && (forall t :: t in s.deleted ==> Released(t) in s.log || Discarded(t) in s.log)
    && (forall i :: 0 <= i < |s.workers| && s.workers[i].task.Some? && s.workers[i].pc !in {RunTest, Execute, Clear}
          ==> Dropped(s.workers[i].task.value) in s.log)
  }

  ghost predicate DoneSound(s: State) {
    && s.taskAdded == AddedSince(s.log)
    && forall k :: 0 <= k < |s.log| && s.log[k] == AllDone ==> Settled(s.log[..k]) && AddedSince(s.log[..k])
  }

  ghost predicate Ledger(s: State) {
    Balanced(s) && Reported(s) && Fifo(s) && Memory(s) && DoneSound(s)
  }

  // ------------------------------------------------------------------- appending

  lemma Appended(log: seq<Event>, e: Event)
    ensures forall x :: Occ(log + [e], x) == Occ(log, x) + One(x == e)
    ensures AddedTasks(log + [e]) == AddedTasks(log) + if e.Added? then [e.task] else []
    ensures TakenTasks(log + [e]) == TakenTasks(log) + if e.Fetched? || e.Discarded? then [e.task] else []
    ensures NumExecuted(log + [e]) == NumExecuted(log) + One(e.Executed?)
    ensures AddedSince(log + [e]) <==> !e.AllDone? && (e.Added? || AddedSince(log))
  {
    assert (log + [e])[..|log|] == log;
  }

  /** Growing the log by anything but ALLDONE keeps every earlier ALLDONE sound. */
  lemma DoneStays(s: State, t: State, e: Event)
    requires DoneSound(s) && t.log == s.log + [e]
    requires t.taskAdded == AddedSince(t.log)
    requires e == AllDone ==> Settled(s.log) && AddedSince(s.log)
    ensures DoneSound(t)
  {
    forall k | 0 <= k < |t.log| && t.log[k] == AllDone
      ensures Settled(t.log[..k]) && AddedSince(t.log[..k])
    {
      assert t.log[..k] == s.log[..k];
      assert s.log[..|s.log|] == s.log;
    }
  }

  lemma {:induction false} QueuedFront(queue: seq<Element>, t: TaskId)
    requires queue != []
    ensures Queued(queue, t) == One(queue[0].task == t) + Queued(queue[1..], t)
    ensures Tasks(queue) == [queue[0].task] + Tasks(queue[1..])
  {
    if |queue| > 1 {
      QueuedFront(queue[..|queue|-1], t);
      assert queue[1..][..|queue|-2] == queue[..|queue|-1][1..];
    } else {
      assert queue[1..] == [];
    }
  }

  // ------------------------------------------------------------- steps that are silent

  /** Worker i moves on without touching a task, the queue or the log. */
  ghost predicate Silent(s: State, t: State, i: nat) {
    && i < |s.workers| && i < |t.workers| && t.workers == s.workers[i := t.workers[i]]
    && t.queue == s.queue && t.log == s.log && t.deleted == s.deleted && t.taskAdded == s.taskAdded
    && (forall x :: Is(t.workers[i], Holds(x)) == Is(s.workers[i], Holds(x)))
    && (forall x :: Is(t.workers[i], Clearing(x)) == Is(s.workers[i], Clearing(x)))
    && Is(t.workers[i], Finishing) == Is(s.workers[i], Finishing)
    && (t.workers[i].task.Some? && t.workers[i].pc !in {RunTest, Execute, Clear} ==>
          Dropped(t.workers[i].task.value) in t.log)
  }

  lemma SilentLedger(s: State, t: State, i: nat)
    requires Ledger(s) && Silent(s, t, i)
    ensures Ledger(t)
  {
    forall x: TaskId ensures InOnePlace(t, x) {
      assert InOnePlace(s, x);
      CountUpdate(s.workers, i, t.workers[i], Holds(x));
      CountUpdate(s.workers, i, t.workers[i], Clearing(x));
    }
    CountUpdate(s.workers, i, t.workers[i], Finishing);
  }

  /** Posting tokens, counting workers, batching: nothing the ledger speaks of. */
  lemma SameLedger(s: State, t: State)
    requires Ledger(s)
    requires t.queue == s.queue && t.log == s.log && t.deleted == s.deleted && t.taskAdded == s.taskAdded
    requires t.workers == s.workers
    ensures Ledger(t)
  {
    forall x: TaskId ensures InOnePlace(t, x) { assert InOnePlace(s, x); }
  }

  lemma ReplacePlace(s: State, t: State, n: nat, x: TaskId)
    requires s.semaphores != [] && Replaced(s, t, n) && InOnePlace(s, x)
    requires t.queue == s.queue && t.log == s.log
    ensures InOnePlace(t, x)
  {
    ReplacedCount(s, t, n, Holds(x));
    ReplacedCount(s, t, n, Clearing(x));
  }

  lemma ReplaceBalanced(s: State, t: State, n: nat)
    requires s.semaphores != [] && Replaced(s, t, n) && Balanced(s)
    requires t.queue == s.queue && t.log == s.log
    ensures Balanced(t)
  {
    hide InOnePlace, Replaced;
    forall x: TaskId ensures InOnePlace(t, x) {
      assert InOnePlace(s, x);
      ReplacePlace(s, t, n, x);
    }
  }

  lemma ReplaceLedger(s: State, t: State, n: nat)
    requires s.semaphores != [] && Replaced(s, t, n) && Ledger(s)
    requires t.queue == s.queue && t.log == s.log && t.deleted == s.deleted && t.taskAdded == s.taskAdded
    ensures Ledger(t)
  {
    hide Balanced, Replaced, Memory;
    ReplaceBalanced(s, t, n);
    ReplacedCount(s, t, n, Finishing);
    ReplaceMemory(s, t, n);
  }

  lemma ReplaceMemory(s: State, t: State, n: nat)
    requires s.semaphores != [] && Replaced(s, t, n) && Memory(s)
    requires t.log == s.log && t.deleted == s.deleted
    ensures Memory(t)
  {
    NewWorkersAt(|s.semaphores|, n);
    assert forall i :: 0 <= i < |s.workers| ==> t.workers[i] == AbortThreads(s.workers, s.threads)[i];
    assert forall i :: |s.workers| <= i < |t.workers| ==>
      t.workers[i] == NewWorkers(|s.semaphores|, n)[i - |s.workers|];
  }

  // ------------------------------------------------------- steps that handle a task

  /** Worker i moves on and e is logged: e says where the task at hand has gone. */
  ghost predicate Logged(s: State, t: State, i: nat, e: Event) {
    && i < |s.workers| && i < |t.workers| && t.workers == s.workers[i := t.workers[i]]
    && t.log == s.log + [e] && t.taskAdded == s.taskAdded && !e.AllDone? && !e.Added?
    && (forall x: TaskId :: Carried(s, t, i, e, x))
    && One(e.Executed?) + One(Is(s.workers[i], Finishing)) == One(e == Ended) + One(Is(t.workers[i], Finishing))
    && Tasks(s.queue) == (if e.Fetched? || e.Discarded? then [e.task] else []) + Tasks(t.queue)
    && (t.deleted == s.deleted || (e.Released? && t.deleted == s.deleted + {e.task}))
    && (t.workers[i].task.Some? && t.workers[i].pc !in {RunTest, Execute, Clear} ==>
          e == Dropped(t.workers[i].task.value))
  }

  ghost predicate Carried(s: State, t: State, i: nat, e: Event, x: TaskId)
    requires i < |s.workers| && i < |t.workers|
  {
    && Queued(t.queue, x) + One(Is(t.workers[i], Holds(x))) + One(e in {Executed(x), Dropped(x), Discarded(x)})
         == Queued(s.queue, x) + One(Is(s.workers[i], Holds(x)))
    && One(e == Executed(x)) + One(Is(s.workers[i], Clearing(x)))
       == One(Is(t.workers[i], Clearing(x))) + One(e == Released(x))
  }

  lemma LoggedPlace(s: State, t: State, i: nat, e: Event, x: TaskId)
    requires InOnePlace(s, x) && Logged(s, t, i, e)
    ensures InOnePlace(t, x)
  {
    Appended(s.log, e);
    assert Carried(s, t, i, e, x);
    CountUpdate(s.workers, i, t.workers[i], Holds(x));
    CountUpdate(s.workers, i, t.workers[i], Clearing(x));
  }

  lemma LoggedRest(s: State, t: State, i: nat, e: Event)
    requires Reported(s) && Fifo(s) && Logged(s, t, i, e)
    ensures Reported(t) && Fifo(t)
  {
    Appended(s.log, e);
    CountUpdate(s.workers, i, t.workers[i], Finishing);
  }

  lemma LoggedMemory(s: State, t: State, i: nat, e: Event)
    requires Memory(s) && Logged(s, t, i, e)
    ensures Memory(t)
  {
  }

  lemma LoggedBalanced(s: State, t: State, i: nat, e: Event)
    requires Balanced(s) && Logged(s, t, i, e)
    ensures Balanced(t)
  {
    hide InOnePlace, Logged;
    forall x: TaskId ensures InOnePlace(t, x) {
      assert InOnePlace(s, x);
      LoggedPlace(s, t, i, e, x);
    }
  }

  lemma LoggedLedger(s: State, t: State, i: nat, e: Event)
    requires Ledger(s) && Logged(s, t, i, e)
    ensures Ledger(t)
  {
    LoggedBalanced(s, t, i, e);
    hide Balanced;
    LoggedRest(s, t, i, e);
    LoggedMemory(s, t, i, e);
    Appended(s.log, e);
    DoneStays(s, t, e);
  }

  lemma FetchLedger(s: State, i: nat)
    requires CanStep(s, i) && Sane(s.workers[i], s.Current()) && Ledger(s) && s.workers[i].pc == Fetch
    ensures Ledger(WorkerStep(s, i))
  {
    var t := WorkerStep(s, i);
    if s.queue == [] {
      SilentLedger(s, t, i);
    } else {
      FetchLogged(s, i);
      LoggedLedger(s, t, i, Fetched(s.queue[0].task));
    }
  }

  lemma FetchLogged(s: State, i: nat)
    requires CanStep(s, i) && Sane(s.workers[i], s.Current()) && s.workers[i].pc == Fetch && s.queue != []
    ensures Logged(s, WorkerStep(s, i), i, Fetched(s.queue[0].task))
  {
    var t := WorkerStep(s, i);
    forall x: TaskId ensures Carried(s, t, i, Fetched(s.queue[0].task), x) {
      QueuedFront(s.queue, x);
    }
    QueuedFront(s.queue, 0);
  }

  function Outcome(w: Worker): Event
    requires w.pc == NotifyEnded || w.element.Some?
  {
    if w.pc == NotifyEnded then Ended
    else if w.pc == Execute then Executed(w.element.value.task)
    else if w.pc == Clear then Released(w.element.value.task)
    else Dropped(w.element.value.task)
  }

  lemma TaskLogged(s: State, i: nat)
    requires CanStep(s, i) && Sane(s.workers[i], s.Current())
    requires s.workers[i].pc in {Execute, Clear, NotifyEnded} || (s.workers[i].pc == RunTest && s.workers[i].aborted)
    ensures Logged(s, WorkerStep(s, i), i, Outcome(s.workers[i]))
  {
    forall x: TaskId ensures Carried(s, WorkerStep(s, i), i, Outcome(s.workers[i]), x) {}
  }

  lemma TaskLedger(s: State, i: nat)
    requires CanStep(s, i) && Sane(s.workers[i], s.Current()) && Ledger(s)
    requires s.workers[i].pc in {RunTest, Execute, Clear, NotifyEnded}
    ensures Ledger(WorkerStep(s, i))
  {
    hide Ledger, Logged;
    if s.workers[i].pc == RunTest && !s.workers[i].aborted {
      SilentLedger(s, WorkerStep(s, i), i);
    } else {
      TaskLogged(s, i);
      LoggedLedger(s, WorkerStep(s, i), i, Outcome(s.workers[i]));
    }
  }

  lemma SilentSteps(s: State, i: nat)
    requires CanStep(s, i) && Sane(s.workers[i], s.Current()) && Memory(s) && !Departing(s, i)
    requires s.workers[i].pc in {LoopTest, AtWait, AbortTest, CallWorking, Publish, Leaving, Exited}
    ensures Silent(s, WorkerStep(s, i), i)
  {
  }

  lemma SilentStep(s: State, i: nat)
    requires CanStep(s, i) && Sane(s.workers[i], s.Current()) && Ledger(s) && !Departing(s, i)
    requires s.workers[i].pc in {LoopTest, AtWait, AbortTest, CallWorking, Publish, Leaving, Exited}
    ensures Ledger(WorkerStep(s, i))
  {
    SilentSteps(s, i);
    SilentLedger(s, WorkerStep(s, i), i);
  }

  // ----------------------------------------------------------- WaitingThread()

  /** With nobody in the working section and an empty queue, everything is settled. */
  lemma IdleIsSettled(s: State)
    requires Machine(s) && Ledger(s) && s.workingThreads == 0 && s.queue == []
    ensures Settled(s.log)
  {
    forall t: TaskId ensures Occ(s.log, Added(t)) == Finished(s.log, t) {
      assert InOnePlace(s, t);
      if Count(s.workers, Holds(t)) > 0 {
        var i := CountWitness(s.workers, Holds(t));
        CountSome(s.workers, i, InSection);
      }
    }
    if Count(s.workers, Finishing) > 0 {
      var i := CountWitness(s.workers, Finishing);
      CountSome(s.workers, i, InSection);
    }
  }

  lemma SayDone(s: State)
    requires Machine(s) && Ledger(s) && s.workingThreads == 0 && s.queue == [] && s.taskAdded
    ensures Ledger(Announced(s))
  {
    var t := Announced(s);
    IdleIsSettled(s);
    Appended(s.log, AllDone);
    DoneStays(s, t, AllDone);
    forall x: TaskId ensures InOnePlace(t, x) { assert InOnePlace(s, x); }
  }

  lemma SetLedger(s: State, n: nat)
    requires Machine(s) && Ledger(s) && 1 <= n <= INT_MAX
    ensures Ledger(SetLocked(s, n))
  {
    if s.workingThreads == 0 {
      ReplaceShape(s, n);
      ReplaceLedger(s, Replace(s, n), n);
    } else {
      SameLedger(s, s.(schedule := n));
    }
  }

  lemma AnnounceLedger(s: State)
    requires Machine(s) && Ledger(s) && s.workingThreads == 0 && s.queue == []
    ensures Machine(Announced(s)) && Ledger(Announced(s))
  {
    assert Machine(Announced(s));
    hide Ledger, Machine;
    if s.taskAdded { SayDone(s); }
  }

  lemma SettleLedger(s: State)
    requires Machine(s) && Ledger(s)
    ensures Ledger(Settle(s))
  {
    if s.workingThreads <= 0 && s.queue == [] {
      AnnounceLedger(s);
      if s.schedule != 0 { SetLedger(Announced(s), s.schedule); }
    } else {
      SameLedger(s, PostCurrent(s, 1));
    }
  }

  lemma DepartLedger(s: State, i: nat)
    requires SaneAt(s, i) && Ledger(s) && Departing(s, i)
    ensures Ledger(Departed(s, i))
  {
    SilentLedger(s, Departed(s, i), i);
  }

  lemma GiveUpLedger(r: State, i: nat)
    requires Ledger(r) && i < |r.workers| && r.workers[i].pc == AtWait && r.workers[i].task.None?
    ensures Ledger(SetWorker(r, i, r.workers[i].(pc := Leaving)))
  {
    SilentLedger(r, SetWorker(r, i, r.workers[i].(pc := Leaving)), i);
  }

  ghost predicate SaneAt(s: State, i: nat) {
    i < |s.workers| && Sane(s.workers[i], s.Current())
  }

  lemma WaitingLedger(s: State, i: nat)
    requires Machine(s) && Ledger(s) && CanStep(s, i) && Departing(s, i)
    ensures Ledger(WorkerStep(s, i))
  {
    hide Ledger, AbortThreads, NewWorkers, PostMany, Count;
    var d := Departed(s, i);
    assert SaneAt(s, i);
    Departs(s, i);
    DepartLedger(s, i);
    SettleLedger(d);
    if s.workers[i].pc == CallWaiting && !WaitingThread(SetWorker(s, i, s.workers[i].(pc := AtWait))).1 {
      Refused(s, i);
      GiveUpLedger(Settle(d), i);
    } else {
      WaitingIsSettle(s, i);
    }
  }

  // ---------------------------------------------------------------- owner's calls

  lemma {:induction false} NeverQueued(queue: seq<Element>, t: TaskId)
    ensures Queued(queue, t) > 0 <==> exists i :: 0 <= i < |queue| && queue[i].task == t
  {
    if queue != [] {
      var front := queue[..|queue|-1];
      NeverQueued(front, t);
      assert forall i :: 0 <= i < |front| ==> front[i] == queue[i];
      if queue[|queue|-1].task != t && (exists i :: 0 <= i < |queue| && queue[i].task == t) {
        var i :| 0 <= i < |queue| && queue[i].task == t;
        assert front[i].task == t;
      }
    }
  }

  lemma PushPlace(s: State, t: TaskId, autodelete: bool, x: TaskId)
    requires InOnePlace(s, x) && Added(t) !in s.log
    ensures InOnePlace(Pushed(s, t, autodelete), x)
  {
    Appended(s.log, Added(t));
    assert Pushed(s, t, autodelete).queue[..|s.queue|] == s.queue;
  }

  lemma PushFifo(s: State, t: TaskId, autodelete: bool)
    requires Fifo(s)
    ensures Fifo(Pushed(s, t, autodelete))
  {
    Appended(s.log, Added(t));
    assert Pushed(s, t, autodelete).queue[..|s.queue|] == s.queue;
  }

  lemma PushLedger(s: State, t: TaskId, autodelete: bool)
    requires Ledger(s) && Added(t) !in s.log
    ensures Ledger(Pushed(s, t, autodelete))
  {
    var s1 := Pushed(s, t, autodelete);
    forall x: TaskId ensures InOnePlace(s1, x) {
      assert InOnePlace(s, x);
      PushPlace(s, t, autodelete, x);
    }
    PushFifo(s, t, autodelete);
    Appended(s.log, Added(t));
    DoneStays(s, s1, Added(t));
  }

  lemma PostsAfterPush(s: State, t: TaskId, autodelete: bool)
    requires s.semaphores != []
    ensures var p, u := Pushed(s, t, autodelete), AddTask(s, Some(t), autodelete);
      && u.queue == p.queue && u.log == p.log && u.deleted == p.deleted && u.taskAdded == p.taskAdded
      && u.workers == p.workers
  {
  }

  lemma AddLedger(s: State, t: TaskId, autodelete: bool)
    requires s.semaphores != [] && Ledger(s) && Added(t) !in s.log
    ensures Ledger(AddTask(s, Some(t), autodelete))
  {
    hide Ledger, Pushed, AddTask;
    PushLedger(s, t, autodelete);
    PostsAfterPush(s, t, autodelete);
    SameLedger(Pushed(s, t, autodelete), AddTask(s, Some(t), autodelete));
  }

  /** AbortAllTasks' Delete() calls, one element at a time. */
  lemma {:induction false} DiscardTaken(log: seq<Event>, queue: seq<Element>)
    ensures TakenTasks(log + DiscardEvents(queue)) == TakenTasks(log) + Tasks(queue)
  {
    if queue == [] {
      assert log + DiscardEvents(queue) == log;
    } else {
      var front, last := queue[..|queue|-1], queue[|queue|-1].task;
      DiscardTaken(log, front);
      assert log + DiscardEvents(queue) == (log + DiscardEvents(front)) + [Discarded(last)];
      Appended(log + DiscardEvents(front), Discarded(last));
      hide DiscardEvents, TakenTasks;
      assert TakenTasks(log) + Tasks(front) + [last] == TakenTasks(log) + (Tasks(front) + [last]);
    }
  }

  lemma {:induction false} DiscardLog(log: seq<Event>, queue: seq<Element>)
    ensures var all := log + DiscardEvents(queue);
      && AddedTasks(all) == AddedTasks(log)
      && NumExecuted(all) == NumExecuted(log)
      && AddedSince(all) == AddedSince(log)
  {
    if queue == [] {
      assert log + DiscardEvents(queue) == log;
    } else {
      var front, last := queue[..|queue|-1], queue[|queue|-1].task;
      DiscardLog(log, front);
      assert log + DiscardEvents(queue) == (log + DiscardEvents(front)) + [Discarded(last)];
      Appended(log + DiscardEvents(front), Discarded(last));
    }
  }

  lemma {:induction false} DiscardOcc(log: seq<Event>, queue: seq<Element>, e: Event)
    ensures Occ(log + DiscardEvents(queue), e) == Occ(log, e) + if e.Discarded? then Queued(queue, e.task) else 0
  {
    if queue == [] {
      assert log + DiscardEvents(queue) == log;
    } else {
      var front, last := queue[..|queue|-1], queue[|queue|-1].task;
      DiscardOcc(log, front, e);
      assert log + DiscardEvents(queue) == (log + DiscardEvents(front)) + [Discarded(last)];
    }
  }

  lemma {:induction false} OnlyDiscards(queue: seq<Element>)
    ensures forall k :: 0 <= k < |DiscardEvents(queue)| ==> DiscardEvents(queue)[k].Discarded?
  {
    if queue != [] { OnlyDiscards(queue[..|queue|-1]); }
  }

  lemma AbortDone(s: State)
    requires DoneSound(s)
    ensures DoneSound(AbortAllTasks(s))
  {
    var t := AbortAllTasks(s);
    DiscardLog(s.log, s.queue);
    OnlyDiscards(s.queue);
    forall k | 0 <= k < |t.log| && t.log[k] == AllDone
      ensures Settled(t.log[..k]) && AddedSince(t.log[..k])
    {
      assert k < |s.log|;
      assert t.log[..k] == s.log[..k];
    }
  }

  lemma AbortPlace(s: State, x: TaskId)
    requires InOnePlace(s, x)
    ensures InOnePlace(AbortAllTasks(s), x)
  {
    DiscardOcc(s.log, s.queue, Added(x));
    DiscardOcc(s.log, s.queue, Executed(x));
    DiscardOcc(s.log, s.queue, Dropped(x));
    DiscardOcc(s.log, s.queue, Discarded(x));
    DiscardOcc(s.log, s.queue, Released(x));
  }

  lemma AbortMemory(s: State)
    requires Memory(s)
    ensures Memory(AbortAllTasks(s))
  {
    var t := AbortAllTasks(s);
    forall x | x in t.deleted ensures Released(x) in t.log || Discarded(x) in t.log {
      if x !in s.deleted {
        NeverQueued(s.queue, x);
        DiscardOcc(s.log, s.queue, Discarded(x));
        assert Occ(t.log, Discarded(x)) > 0;
      }
    }
  }

  lemma AbortBalanced(s: State)
    requires Balanced(s)
    ensures Balanced(AbortAllTasks(s))
  {
    hide InOnePlace, AbortAllTasks;
    forall x: TaskId ensures InOnePlace(AbortAllTasks(s), x) {
      assert InOnePlace(s, x);
      AbortPlace(s, x);
    }
  }

  lemma AbortCounts(s: State)
    requires Reported(s) && Fifo(s)
    ensures Reported(AbortAllTasks(s)) && Fifo(AbortAllTasks(s))
  {
    DiscardLog(s.log, s.queue);
    DiscardTaken(s.log, s.queue);
    DiscardOcc(s.log, s.queue, Ended);
  }

  lemma AbortLedger(s: State)
    requires Ledger(s)
    ensures Ledger(AbortAllTasks(s))
  {
    hide Balanced, Reported, Fifo, Memory, DoneSound, AbortAllTasks;
    AbortBalanced(s);
    AbortCounts(s);
    AbortDone(s);
    AbortMemory(s);
  }

  lemma LedgerNext(s: State, step: Step)
    requires Machine(s) && Ledger(s) && Enabled(s, step)
    ensures Ledger(Next(s, step))
  {
    match step
    case Set(n) =>
      if n == s.concurrent { SameLedger(s, s.(schedule := 0)); } else { SetLedger(s, n); }
    case Add(task, autodelete) =>
      if task.Some? { AddLedger(s, task.value, autodelete); }
    case AbortAll => AbortLedger(s);
    case Begin => SameLedger(s, BatchBegin(s));
    case End => SameLedger(s, BatchEnd(s));
    case Run(i) => LedgerRun(s, i);
  }

  lemma LedgerRun(s: State, i: nat)
    requires Machine(s) && Ledger(s) && CanStep(s, i)
    ensures Ledger(WorkerStep(s, i))
  {
    assert SaneAt(s, i);
    if Departing(s, i) { WaitingLedger(s, i); }
    else if s.workers[i].pc == Fetch { FetchLedger(s, i); }
    else if s.workers[i].pc in {RunTest, Execute, Clear, NotifyEnded} { TaskLedger(s, i); }
    else { SilentStep(s, i); }
  }

  lemma FreshLedger(t: State, n: nat)
    requires Fresh(t, n) && 1 <= n <= INT_MAX
    ensures Ledger(t)
  {
    forall x: TaskId ensures InOnePlace(t, x) {
      FreshCount(t, n, Holds(x));
      FreshCount(t, n, Clearing(x));
    }
    FreshCount(t, n, Finishing);
    NewWorkersAt(1, n);
  }
}
