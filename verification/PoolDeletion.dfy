/** Which tasks the pool deletes, and when. */
module PoolDeletion {
  import opened Basics
  import opened PoolModel
  import opened PoolCounting
  import opened Tallies
  import opened PoolInvariant
  import opened PoolLedger

  /** The autodelete value travels with the task. */
  ghost predicate Labelled(s: State) {
    && (forall t :: t in s.entrusted ==> Added(t) in s.log)
    && (forall k :: 0 <= k < |s.queue| ==> (s.queue[k].autodelete <==> s.queue[k].task in s.entrusted))
    && (forall i :: 0 <= i < |s.workers| && s.workers[i].element.Some? ==>
          (s.workers[i].element.value.autodelete <==> s.workers[i].element.value.task in s.entrusted))
  }

  /** Deleted is: handed over with autodelete, and either executed and released or discarded. */
  ghost predicate DeletedExact(s: State) {
    forall t: TaskId :: t in s.deleted <==> t in s.entrusted && (Released(t) in s.log || Discarded(t) in s.log)
  }

  ghost predicate Deletion(s: State) { Labelled(s) && DeletedExact(s) }

  /** A task that was never added is nowhere. */
  lemma Unknown(s: State, t: TaskId)
    requires Balanced(s) && AllSane(s) && Added(t) !in s.log
    ensures Released(t) !in s.log && Discarded(t) !in s.log
    ensures forall k :: 0 <= k < |s.queue| ==> s.queue[k].task != t
    ensures forall i :: 0 <= i < |s.workers| && s.workers[i].element.Some? ==> s.workers[i].element.value.task != t
  {
    assert InOnePlace(s, t);
    NeverQueued(s.queue, t);
    forall i | 0 <= i < |s.workers| && s.workers[i].element.Some? ensures s.workers[i].element.value.task != t {
      assert Sane(s.workers[i], s.Current());
      if s.workers[i].element.value.task == t {
        if s.workers[i].pc == Clear { CountSome(s.workers, i, Clearing(t)); }
        else { CountSome(s.workers, i, Holds(t)); }
      }
    }
  }

  lemma PushDeletion(s: State, t: TaskId, autodelete: bool)
    requires Machine(s) && Ledger(s) && Deletion(s) && Added(t) !in s.log
    ensures Deletion(Pushed(s, t, autodelete))
  {
    Unknown(s, t);
    var s1 := Pushed(s, t, autodelete);
    forall k | 0 <= k < |s1.queue| ensures s1.queue[k].autodelete <==> s1.queue[k].task in s1.entrusted {
      if k < |s.queue| { assert s1.queue[k] == s.queue[k]; }
    }
  }

  lemma AbortDeletion(s: State)
    requires Deletion(s)
    ensures Deletion(AbortAllTasks(s))
  {
    var t := AbortAllTasks(s);
    forall x: TaskId
      ensures x in t.deleted <==> x in t.entrusted && (Released(x) in t.log || Discarded(x) in t.log)
    {
      NeverQueued(s.queue, x);
      DiscardOcc(s.log, s.queue, Discarded(x));
      DiscardOcc(s.log, s.queue, Released(x));
      assert Released(x) in t.log <==> Occ(t.log, Released(x)) > 0;
      assert Discarded(x) in t.log <==> Occ(t.log, Discarded(x)) > 0;
    }
  }

  lemma ReplaceDeletion(s: State, n: nat)
    requires Machine(s) && s.workingThreads == 0 && Deletion(s) && 1 <= n <= INT_MAX
    ensures Deletion(Replace(s, n))
  {
    var t := Replace(s, n);
    ReplaceShape(s, n);
    NewWorkersAt(|s.semaphores|, n);
    assert forall i :: 0 <= i < |s.workers| ==> t.workers[i] == AbortThreads(s.workers, s.threads)[i];
    assert forall i :: |s.workers| <= i < |t.workers| ==>
      t.workers[i] == NewWorkers(|s.semaphores|, n)[i - |s.workers|];
  }

  lemma SettleDeletion(s: State)
    requires Machine(s) && Deletion(s)
    ensures Deletion(Settle(s))
  {
    if s.workingThreads <= 0 && s.queue == [] {
      var s1 := Announced(s);
      assert Machine(s1);
      assert Deletion(s1);
      if s1.schedule != 0 { ReplaceDeletion(s1, s1.schedule); }
    }
  }

  /** Worker i moves on and keeps, takes or lets go of its element. */
  lemma MovedDeletion(s: State, t: State, i: nat)
    requires Deletion(s) && i < |s.workers| && i < |t.workers| && t.workers == s.workers[i := t.workers[i]]
    requires t.entrusted == s.entrusted && t.deleted == s.deleted
    requires t.queue == s.queue || (s.queue != [] && t.queue == s.queue[1..])
    requires t.workers[i].element.None? || t.workers[i].element == s.workers[i].element
          || (s.queue != [] && t.workers[i].element == Some(s.queue[0]))
    requires t.log == s.log || (|t.log| == |s.log| + 1 && t.log[..|s.log|] == s.log
                                && !t.log[|s.log|].Released? && !t.log[|s.log|].Discarded?)
    ensures Deletion(t)
  {
    if t.log != s.log { assert t.log == s.log + [t.log[|s.log|]]; }
  }

  lemma ClearDeletion(s: State, i: nat)
    requires Deletion(s) && CanStep(s, i) && s.workers[i].pc == Clear && s.workers[i].element.Some?
    ensures Deletion(WorkerStep(s, i))
  {
    var t := WorkerStep(s, i);
    assert t.log == s.log + [Released(s.workers[i].element.value.task)];
    assert t.workers == s.workers[i := t.workers[i]];
  }

  lemma WaitingDeletion(s: State, i: nat)
    requires Machine(s) && Deletion(s) && CanStep(s, i) && Departing(s, i)
    ensures Deletion(WorkerStep(s, i))
  {
    hide Machine, Deletion;
    var d := Departed(s, i);
    Departs(s, i);
    MovedDeletion(s, d, i);
    SettleDeletion(d);
    hide Settle;
    if s.workers[i].pc == CallWaiting && !WaitingThread(SetWorker(s, i, s.workers[i].(pc := AtWait))).1 {
      Refused(s, i);
      var r := Settle(d);
      MovedDeletion(r, SetWorker(r, i, r.workers[i].(pc := Leaving)), i);
    } else {
      WaitingIsSettle(s, i);
    }
  }

  lemma PlainDeletion(s: State, i: nat)
    requires Deletion(s) && CanStep(s, i) && SaneAt(s, i) && !Departing(s, i) && s.workers[i].pc != Clear
    ensures Deletion(WorkerStep(s, i))
  {
    hide Deletion;
    MovedDeletion(s, WorkerStep(s, i), i);
  }

  lemma WorkerDeletion(s: State, i: nat)
    requires Machine(s) && Deletion(s) && CanStep(s, i)
    ensures Deletion(WorkerStep(s, i))
  {
    assert SaneAt(s, i);
    hide Machine, Deletion, WorkerStep;
    if Departing(s, i) { WaitingDeletion(s, i); }
    else if s.workers[i].pc == Clear { ClearDeletion(s, i); }
    else { PlainDeletion(s, i); }
  }

  /** Deletion does not look at semaphores, counts and flags. */
  lemma SameDeletion(s: State, t: State)
    requires Deletion(s) && t.workers == s.workers && t.queue == s.queue && t.log == s.log
    requires t.entrusted == s.entrusted && t.deleted == s.deleted
    ensures Deletion(t)
  {
  }

  lemma AddDeletion(s: State, t: TaskId, autodelete: bool)
    requires s.semaphores != [] && Machine(s) && Ledger(s) && Deletion(s) && Added(t) !in s.log
    ensures Deletion(AddTask(s, Some(t), autodelete))
  {
    hide Machine, Ledger, Deletion;
    PushDeletion(s, t, autodelete);
    SameDeletion(Pushed(s, t, autodelete), AddTask(s, Some(t), autodelete));
  }

  lemma SetDeletion(s: State, n: nat)
    requires s.semaphores != [] && Machine(s) && Deletion(s) && 1 <= n <= INT_MAX
    ensures Deletion(SetConcurrentThreads(s, n))
  {
    hide Deletion, Replace;
    if n != s.concurrent && s.workingThreads == 0 {
      ReplaceDeletion(s, n);
    } else {
      SameDeletion(s, SetConcurrentThreads(s, n));
    }
  }

  lemma DeletionNext(s: State, step: Step)
    requires Machine(s) && Ledger(s) && Deletion(s) && Enabled(s, step)
    ensures Deletion(Next(s, step))
  {
    hide Machine, Ledger, Deletion, SetConcurrentThreads, AddTask, AbortAllTasks, WorkerStep;
    match step
    case Set(n) => SetDeletion(s, n);
    case Add(task, autodelete) =>
      if task.Some? { AddDeletion(s, task.value, autodelete); } else { NoTask(s, autodelete); }
    case AbortAll => AbortDeletion(s);
    case Run(i) => WorkerDeletion(s, i);
    case Begin => SameDeletion(s, BatchBegin(s));
    case End => SameDeletion(s, BatchEnd(s));
  }

  lemma NoTask(s: State, autodelete: bool)
    requires s.semaphores != []
    ensures AddTask(s, None, autodelete) == s
  {
  }
}
