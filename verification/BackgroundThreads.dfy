/** JobQueue, BackgroundThread and BackgroundThreadPool as objects. Each method is proved
    to make the steps of BackgroundModel.dfy; the destructor is a run of them. */
module BackgroundThreads {
  import opened Basics
  import opened BackgroundModel

  class JobQueue {
    var jobs: seq<Job>

    constructor ()
      ensures jobs == []
    {
      jobs := [];
    }

    method Push(j: Job)
      modifies this
      ensures jobs == old(jobs) + [j]
    {
      jobs := jobs + [j];
    }

    method Pop() returns (j: Job)
      requires jobs != []
      modifies this
      ensures j == old(jobs)[0] && jobs == old(jobs)[1..]
    {
      j := jobs[0];
      jobs := jobs[1..];
    }
  }

  class WxSemaphore {
    var tokens: nat

    constructor ()
      ensures tokens == 0
    {
      tokens := 0;
    }

    method Post()
      modifies this
      ensures tokens == old(tokens) + 1
    {
      tokens := tokens + 1;
    }
  }

  class BackgroundThread {
    const queue: JobQueue
    const semaphore: WxSemaphore
    var die: bool
    var place: Place
    var job: Job

    constructor (queue: JobQueue, semaphore: WxSemaphore)
      ensures View() == Thread(false, AtWait, 0) && this.queue == queue && this.semaphore == semaphore
    {
      this.queue, this.semaphore := queue, semaphore;
      die, place, job := false, AtWait, 0;
    }

    function View(): Thread
      reads this
    {
      Thread(die, place, job)
    }

    method MarkDying()
      modifies this`die
      ensures View() == old(View()).(die := true)
    {
      die := true;
    }

    method Die()
      modifies this`die, semaphore
      ensures View() == old(View()).(die := true) && semaphore.tokens == old(semaphore.tokens) + 1
    {
      die := true;
      semaphore.Post();
    }
  }

  ghost function Views(ts: seq<BackgroundThread>): (r: seq<Thread>)
    reads ts
    ensures |r| == |ts| && forall i :: 0 <= i < |r| ==> r[i] == ts[i].View()
  {
    seq(|ts|, i requires 0 <= i < |ts| reads ts => ts[i].View())
  }

  /** k threads marked, and k threads told to die, from the front of the list. */
  ghost function Marking(s: State, k: nat): State
    requires k <= |s.threads|
  {
    s.(threads := seq(|s.threads|, i requires 0 <= i < |s.threads| =>
                        if i < k then s.threads[i].(die := true) else s.threads[i]),
       phase := Agony(k))
  }

  ghost function Dying(s: State, k: nat): State
    requires k <= |s.threads|
  {
    Marking(s, |s.threads|).(tokens := s.tokens + k, phase := Death(k))
  }

  lemma MarkingIsRun(s: State, k: nat)
    requires k < |s.threads|
    ensures Enabled(Marking(s, k), Mark) && Marking(s, k).phase == Agony(k)
    ensures Next(Marking(s, k), Mark) == Marking(s, k + 1)
  {
    assert Next(Marking(s, k), Mark).threads == Marking(s, k + 1).threads;
  }

  lemma DyingIsRun(s: State, k: nat)
    requires k < |s.threads|
    ensures Enabled(Dying(s, k), Die) && Dying(s, k).phase == Death(k)
    ensures Next(Dying(s, k), Die) == Dying(s, k + 1)
  {
    assert Next(Dying(s, k), Die).threads == Dying(s, k + 1).threads;
  }

  lemma DestructorStart(s: State)
    requires s.phase == Open
    ensures Next(s, BeginAgony) == Marking(s, 0)
    ensures Enabled(Marking(s, |s.threads|), BeginDeath) && Next(Marking(s, |s.threads|), BeginDeath) == Dying(s, 0)
  {
    assert Marking(s, 0).threads == s.threads;
  }

  lemma {:induction false} MarkingReached(n: nat, steps: seq<Step>, s: State, k: nat) returns (more: seq<Step>)
    requires After(n, steps) == Some(s) && s.phase == Open && k <= |s.threads|
    ensures After(n, more) == Some(Marking(s, k))
  {
    if k == 0 {
      DestructorStart(s);
      more := OneMore(n, steps, s, BeginAgony);
    } else {
      more := MarkingReached(n, steps, s, k - 1);
      MarkingIsRun(s, k - 1);
      more := OneMore(n, more, Marking(s, k - 1), Mark);
    }
  }

  lemma {:induction false} DyingReached(n: nat, steps: seq<Step>, s: State, k: nat) returns (more: seq<Step>)
    requires After(n, steps) == Some(s) && s.phase == Open && k <= |s.threads|
    ensures After(n, more) == Some(Dying(s, k))
  {
    if k == 0 {
      DestructorStart(s);
      more := MarkingReached(n, steps, s, |s.threads|);
      more := OneMore(n, more, Marking(s, |s.threads|), BeginDeath);
    } else {
      more := DyingReached(n, steps, s, k - 1);
      DyingIsRun(s, k - 1);
      more := OneMore(n, more, Dying(s, k - 1), Die);
    }
  }

  /** The destructor is a run of the model's steps: from a state that a run reaches with the
      pool open, another run reaches the state in which Destroy leaves the object. */
  lemma DestroyIsRun(n: nat, steps: seq<Step>, s: State)
    requires After(n, steps) == Some(s) && s.phase == Open
    ensures exists more :: After(n, more) == Some(Dying(s, |s.threads|))
  {
    var more := DyingReached(n, steps, s, |s.threads|);
  }

  /** What is left after Destroy: whatever its threads and the callers of Queue() still do,
      when they come to rest every thread has left Entry(). */
  lemma DestroyStrandsNobody(n: nat, steps: seq<Step>, s: State, rest: seq<Step>, t: State)
    requires After(n, steps) == Some(s) && s.phase == Open
    requires RunFrom(Dying(s, |s.threads|), rest) == Some(t) && AtRest(t)
    ensures |t.threads| == |s.threads| && forall i :: 0 <= i < |t.threads| ==> t.threads[i].place == Gone
  {
    var more := DyingReached(n, steps, s, |s.threads|);
    RunOn(n, more, Dying(s, |s.threads|), rest);
    DeadStays(Dying(s, |s.threads|), rest);
    DestructorStrandsNobody(n, more + rest);
  }

  lemma {:induction false} DeadStays(s: State, rest: seq<Step>)
    requires s.phase == Death(|s.threads|) && RunFrom(s, rest).Some?
    ensures RunFrom(s, rest).value.phase == s.phase && |RunFrom(s, rest).value.threads| == |s.threads|
  {
    if rest != [] { DeadStays(s, rest[..|rest|-1]); }
  }

  class BackgroundThreadPool {
    const queue: JobQueue
    const semaphore: WxSemaphore
    var threadList: seq<BackgroundThread>
    ghost var phase: Phase
    ghost var pushed: seq<Job>
    ghost var popped: seq<Job>
    ghost var run: seq<Job>

    ghost predicate Valid()
      reads this
    {
      && (forall i, j :: 0 <= i < j < |threadList| ==> threadList[i] != threadList[j])
      && (forall i :: 0 <= i < |threadList| ==>
            threadList[i].queue == queue && threadList[i].semaphore == semaphore)
    }

    ghost function State(): State
      reads this, queue, semaphore, threadList
    {
      BackgroundModel.State.State(queue.jobs, semaphore.tokens, Views(threadList), phase, 0, pushed, popped, run)
    }

    constructor (numThreads: nat)
      ensures Valid() && State() == Init(numThreads)
      ensures fresh(queue) && fresh(semaphore) && fresh(threadList)
    {
      queue := new JobQueue();
      semaphore := new WxSemaphore();
      threadList := [];
      phase, pushed, popped, run := Open, [], [], [];
      new;
      for i := 0 to numThreads
        invariant Valid() && fresh(queue) && fresh(semaphore) && fresh(threadList)
        invariant |threadList| == i && queue.jobs == [] && semaphore.tokens == 0
        invariant phase == Open && pushed == popped == run == []
        invariant forall k :: 0 <= k < i ==> threadList[k].View() == Thread(false, AtWait, 0)
      {
        var t := new BackgroundThread(queue, semaphore);
        AddThread(t);
      }
      assert Views(threadList) == Spawned(numThreads);
    }

    /** A thread made with the pool's own queue and semaphore. */
    method AddThread(t: BackgroundThread)
      requires Valid() && t !in threadList && t.queue == queue && t.semaphore == semaphore
      modifies this`threadList
      ensures Valid() && threadList == old(threadList) + [t]
      ensures State() == old(State()).(threads := old(State()).threads + [t.View()])
    {
      threadList := threadList + [t];
      assert Views(threadList) == old(Views(threadList)) + [t.View()];
    }

    /** Queue(), when nobody else runs in between. */
    method Queue(j: Job)
      requires Valid()
      modifies queue, semaphore, this`pushed
      ensures Valid() && State() == Next(Next(old(State()), Push(j)), Post)
    {
      queue.Push(j);
      pushed := pushed + [j];
      semaphore.Post();
    }

    /** ~BackgroundThreadPool up to Delete(queue): for_each Agony, then for_each Death. */
    method Destroy()
      requires Valid() && phase == Open
      modifies this`phase, semaphore, threadList
      ensures Valid() && State() == Dying(old(State()), |threadList|)
    {
      AgonyLoop();
      DeathLoop(old(State()));
    }

    method AgonyLoop()
      requires Valid() && phase == Open
      modifies this`phase, threadList
      ensures Valid() && State() == Marking(old(State()), |threadList|)
    {
      ghost var s := State();
      DestructorStart(s);
      phase := Agony(0);
      assert State() == Next(s, BeginAgony);
      hide Views, Marking, Next;
      for k := 0 to |threadList|
        invariant Valid() && State() == Marking(s, k)
      {
        MarkingIsRun(s, k);
        MarkOne(k);
      }
    }

    /** Agony()(thread k) */
    method MarkOne(k: nat)
      requires Valid() && k < |threadList| && Enabled(State(), Mark) && State().phase.done == k
      modifies this`phase, {threadList[k]}`die
      ensures Valid() && State() == Next(old(State()), Mark)
    {
      threadList[k].MarkDying();
      phase := Agony(k + 1);
      assert Views(threadList) == old(Views(threadList))[k := threadList[k].View()];
    }

    method DeathLoop(ghost s: State)
      requires Valid() && s.phase == Open && State() == Marking(s, |s.threads|)
      modifies this`phase, semaphore, threadList
      ensures Valid() && State() == Dying(s, |s.threads|)
    {
      DestructorStart(s);
      phase := Death(0);
      assert |threadList| == |s.threads| && State() == Dying(s, 0);
      hide Views, Dying, Marking, Next;
      for k := 0 to |threadList|
        invariant Valid() && State() == Dying(s, k)
      {
        DyingIsRun(s, k);
        DieOne(k);
      }
    }

    /** Death()(thread k) */
    method DieOne(k: nat)
      requires Valid() && k < |threadList| && Enabled(State(), Step.Die) && State().phase.done == k
      modifies this`phase, semaphore, {threadList[k]}`die
      ensures Valid() && State() == Next(old(State()), Step.Die)
    {
      threadList[k].Die();
      phase := Death(k + 1);
      assert Views(threadList) == old(Views(threadList))[k := threadList[k].View()];
    }

    /** One step of thread i through BackgroundThread::Entry. */
    method EntryStep(i: nat)
      requires Valid() && CanGo(State(), i)
      modifies queue, semaphore, this`popped, this`run, {threadList[i]}
      ensures Valid() && State() == GoOn(old(State()), i)
    {
      var t := threadList[i];
      match t.place {
        case AtWait =>
          semaphore.tokens := semaphore.tokens - 1;
          t.place := AtDieTest;
        case AtDieTest =>
          t.place := if t.die then Gone else AtPop;
        case AtPop =>
          t.job := queue.Pop();
          t.place := AtRun;
          popped := popped + [t.job];
        case AtRun =>
          run := run + [t.job];
          t.place := AtWait;
      }
      assert Views(threadList) == old(Views(threadList))[i := t.View()];
    }
  }
}
