/** BackgroundThreadPool as a transition system: threads that wait on one semaphore and
    pop one shared queue, and a destructor that first marks every thread (Agony) and then
    wakes every thread (Death). */
module BackgroundModel {
  import opened Basics
  import opened Tallies

  type Job = nat

  /** Where a thread is in BackgroundThread::Entry. */
  datatype Place =
    | AtWait      // semaphore->Wait();
    | AtDieTest   // if (die) break;
    | AtPop       // job = queue->Pop();
    | AtRun       // (*job)(); delete job;
    | Gone

  datatype Thread = Thread(die: bool, place: Place, job: Job)

  /** How far ~BackgroundThreadPool has come; the number says how many threads it has done. */
  datatype Phase = Open | Agony(done: nat) | Death(done: nat)

  datatype State = State(
    queue: seq<Job>,
    tokens: nat,
    threads: seq<Thread>,
    phase: Phase,
    posting: nat,       // callers of Queue() between queue.Push and semaphore.Post
    pushed: seq<Job>,   // everything ever pushed,
    popped: seq<Job>,   // popped
    run: seq<Job>)      // and run, in order

  datatype Step =
    | Spawn             // AddThread(new BackgroundThread(&queue, &semaphore))
    | Push(job: Job)    // Queue(job): queue.Push(job);
    | Post              //             semaphore.Post();
    | BeginAgony        // ~BackgroundThreadPool
    | Mark              // MarkDying() on the next thread
    | BeginDeath
    | Die               // Die() on the next thread
    | Go(thread: nat)   // a thread takes its next step

  predicate CanGo(s: State, i: nat) {
    && i < |s.threads|
    && match s.threads[i].place
       case AtWait => s.tokens > 0
       case AtPop => s.queue != []   // front() and pop_front() of an empty deque are undefined
       case Gone => false
       case _ => true
  }

  predicate Enabled(s: State, step: Step) {
    match step
    case Spawn => s.phase == Open
    case Push(_) => true
    case Post => s.posting > 0
    case BeginAgony => s.phase == Open
    case Mark => s.phase.Agony? && s.phase.done < |s.threads|
    case BeginDeath => s.phase == Agony(|s.threads|)
    case Die => s.phase.Death? && s.phase.done < |s.threads|
    case Go(i) => CanGo(s, i)
  }

  function Set(s: State, i: nat, t: Thread): State
    requires i < |s.threads|
  {
    s.(threads := s.threads[i := t])
  }

  /** The next step of a thread. */
  function GoOn(s: State, i: nat): State
    requires CanGo(s, i)
  {
    var t := s.threads[i];
    match t.place
    case AtWait => Set(s.(tokens := s.tokens - 1), i, t.(place := AtDieTest))
    case AtDieTest => Set(s, i, t.(place := if t.die then Gone else AtPop))
    case AtPop => Set(s.(queue := s.queue[1..], popped := s.popped + [s.queue[0]]), i,
                      t.(place := AtRun, job := s.queue[0]))
    case AtRun => Set(s.(run := s.run + [t.job]), i, t.(place := AtWait))
  }

  /** BackgroundThread::Die on thread i */
  function DieAt(s: State, i: nat): State
    requires i < |s.threads|
  {
    Set(s.(tokens := s.tokens + 1), i, s.threads[i].(die := true))
  }

  function Next(s: State, step: Step): State
    requires Enabled(s, step)
  {
    match step
    case Spawn => s.(threads := s.threads + [Thread(false, AtWait, 0)])
    case Push(j) => s.(queue := s.queue + [j], pushed := s.pushed + [j], posting := s.posting + 1)
    case Post => s.(tokens := s.tokens + 1, posting := s.posting - 1)
    case BeginAgony => s.(phase := Agony(0))
    case Mark => Set(s, s.phase.done, s.threads[s.phase.done].(die := true)).(phase := Agony(s.phase.done + 1))
    case BeginDeath => s.(phase := Death(0))
    case Die => DieAt(s, s.phase.done).(phase := Death(s.phase.done + 1))
    case Go(i) => GoOn(s, i)
  }

  function Spawned(n: nat): (r: seq<Thread>)
    ensures |r| == n && forall i :: 0 <= i < n ==> r[i] == Thread(false, AtWait, 0)
  {
    seq(n, i => Thread(false, AtWait, 0))
  }

  /** BackgroundThreadPool(n) */
  function Init(n: nat): State { State([], 0, Spawned(n), Open, 0, [], [], []) }

  function After(n: nat, steps: seq<Step>): Option<State> {
    if steps == [] then Some(Init(n))
    else match After(n, steps[..|steps|-1])
         case None => None
         case Some(s) => if Enabled(s, steps[|steps|-1]) then Some(Next(s, steps[|steps|-1])) else None
  }

  /** A run that goes on from s. */
  function RunFrom(s: State, steps: seq<Step>): Option<State> {
    if steps == [] then Some(s)
    else match RunFrom(s, steps[..|steps|-1])
         case None => None
         case Some(t) => if Enabled(t, steps[|steps|-1]) then Some(Next(t, steps[|steps|-1])) else None
  }

  lemma OneMore(n: nat, steps: seq<Step>, s: State, step: Step) returns (more: seq<Step>)
    requires After(n, steps) == Some(s) && Enabled(s, step)
    ensures After(n, more) == Some(Next(s, step))
  {
    more := steps + [step];
    assert more[..|steps|] == steps;
  }

  lemma {:induction false} RunOn(n: nat, steps: seq<Step>, s: State, rest: seq<Step>)
    requires After(n, steps) == Some(s)
    ensures After(n, steps + rest) == RunFrom(s, rest)
  {
    if rest == [] {
      assert steps + rest == steps;
    } else {
      RunOn(n, steps, s, rest[..|rest|-1]);
      assert (steps + rest)[..|steps + rest| - 1] == steps + rest[..|rest|-1];
    }
  }

  // ------------------------------------------------------------------- invariant

  function At(p: Place): (f: Thread -> bool)
    ensures forall t :: f(t) == (t.place == p)
  {
    (t: Thread) => t.place == p
  }

  function Number(s: State, p: Place): nat { Tally(s.threads, At(p)) }

  function Deaths(s: State): nat { if s.phase.Death? then s.phase.done else 0 }

  function Running(j: Job): (f: Thread -> bool)
    ensures forall t :: f(t) == (t.place == AtRun && t.job == j)
  {
    (t: Thread) => t.place == AtRun && t.job == j
  }

  /** Every token comes from a pushed job or from Die(), and is somewhere. */
  ghost predicate TokensAccounted(s: State) {
    s.tokens + Number(s, AtDieTest) + Number(s, AtPop) + Number(s, Gone) + s.posting == |s.queue| + Deaths(s)
  }

  /** The threads past the die test never outnumber the queued jobs. */
  ghost predicate PopsCovered(s: State) { Number(s, AtPop) <= |s.queue| }

  ghost predicate Marked(s: State) {
    && (s.phase.Agony? ==> s.phase.done <= |s.threads| && forall i :: 0 <= i < s.phase.done ==> s.threads[i].die)
    && (s.phase.Death? ==> s.phase.done <= |s.threads| && forall i :: 0 <= i < |s.threads| ==> s.threads[i].die)
    && (forall i :: 0 <= i < |s.threads| && s.threads[i].place == Gone ==> s.threads[i].die)
    && (s.phase == Open ==> forall i :: 0 <= i < |s.threads| ==> !s.threads[i].die)
  }

  /** The destructor's tokens suffice for every thread that will still come to Wait(). */
  ghost predicate WakesAll(s: State) {
    s.phase.Death? ==>
      s.tokens + (|s.threads| - s.phase.done) >= Number(s, AtWait) + Number(s, AtPop) + Number(s, AtRun)
  }

  ghost predicate Fifo(s: State) { s.pushed == s.popped + s.queue }

  ghost predicate RunOnce(s: State) {
    forall j: Job :: multiset(s.popped)[j] == multiset(s.run)[j] + Tally(s.threads, Running(j))
  }

  ghost predicate Inv(s: State) {
    TokensAccounted(s) && PopsCovered(s) && Marked(s) && WakesAll(s) && Fifo(s) && RunOnce(s)
  }

  lemma Moved(s: State, i: nat, t: Thread, p: Place)
    requires i < |s.threads|
    ensures Number(Set(s, i, t), p) + One(s.threads[i].place == p) == Number(s, p) + One(t.place == p)
  {
    TallyUpdate(s.threads, i, t, At(p));
  }

  lemma MovedAll(s: State, i: nat, t: Thread)
    requires i < |s.threads|
    ensures forall p: Place ::
      Number(Set(s, i, t), p) + One(s.threads[i].place == p) == Number(s, p) + One(t.place == p)
  {
    forall p: Place ensures Number(Set(s, i, t), p) + One(s.threads[i].place == p) == Number(s, p) + One(t.place == p) {
      Moved(s, i, t, p);
    }
  }

  lemma {:induction false} CountPlaces(ts: seq<Thread>)
    ensures |ts| == Tally(ts, At(AtWait)) + Tally(ts, At(AtDieTest)) + Tally(ts, At(AtPop)) + Tally(ts, At(AtRun))
                    + Tally(ts, At(Gone))
  {
    if ts != [] { CountPlaces(ts[..|ts|-1]); }
  }

  lemma GoInv(s: State, i: nat)
    requires Inv(s) && CanGo(s, i)
    ensures Inv(GoOn(s, i))
  {
    hide RunOnce;
    var u := GoOn(s, i);
    MovedAll(s, i, u.threads[i]);
    assert u.threads == Set(s, i, u.threads[i]).threads;
    assert forall p: Place :: Number(u, p) == Number(Set(s, i, u.threads[i]), p);
    if s.phase.Death? && s.threads[i].place == AtDieTest { assert s.threads[i].die; }
    if s.threads[i].place == AtDieTest && !s.threads[i].die { PopRoom(s, i); }
    GoRunOnce(s, i);
  }

  /** A thread that passes the die test before the first Die() finds room. */
  lemma PopRoom(s: State, i: nat)
    requires TokensAccounted(s) && Marked(s) && i < |s.threads|
    requires s.threads[i].place == AtDieTest && !s.threads[i].die
    ensures Number(s, AtPop) + 1 <= |s.queue|
  {
    TallySome(s.threads, i, At(AtDieTest));
    assert !s.phase.Death?;
  }

  lemma GoRunOnce(s: State, i: nat)
    requires RunOnce(s) && CanGo(s, i)
    ensures RunOnce(GoOn(s, i))
  {
    var u := GoOn(s, i);
    forall j: Job ensures multiset(u.popped)[j] == multiset(u.run)[j] + Tally(u.threads, Running(j)) {
      TallyUpdate(s.threads, i, u.threads[i], Running(j));
    }
  }

  /** Marking a thread moves nobody. */
  lemma DieKeeps(s: State, i: nat)
    requires i < |s.threads|
    ensures var u := Set(s, i, s.threads[i].(die := true));
      && (forall p: Place :: Number(u, p) == Number(s, p))
      && (forall j: Job :: Tally(u.threads, Running(j)) == Tally(s.threads, Running(j)))
  {
    var t := s.threads[i].(die := true);
    forall p: Place ensures Number(Set(s, i, t), p) == Number(s, p) { Moved(s, i, t, p); }
    forall j: Job ensures Tally(s.threads[i := t], Running(j)) == Tally(s.threads, Running(j)) {
      TallyUpdate(s.threads, i, t, Running(j));
    }
  }

  lemma DestructorInv(s: State, step: Step)
    requires Inv(s) && Enabled(s, step) && (step.Mark? || step.Die? || step.BeginDeath?)
    ensures Inv(Next(s, step))
  {
    if step.BeginDeath? {
      CountPlaces(s.threads);
    } else {
      DieKeeps(s, s.phase.done);
      var u := Next(s, step);
      assert u.threads == Set(s, s.phase.done, s.threads[s.phase.done].(die := true)).threads;
      assert forall p: Place :: Number(u, p) == Number(s, p);
    }
  }

  lemma SpawnCounts(s: State)
    requires s.phase == Open
    ensures forall p: Place :: Number(Next(s, Spawn), p) == Number(s, p) + One(p == AtWait)
    ensures forall j: Job :: Tally(Next(s, Spawn).threads, Running(j)) == Tally(s.threads, Running(j))
  {
    var t := Thread(false, AtWait, 0);
    forall p: Place ensures Number(Next(s, Spawn), p) == Number(s, p) + One(p == AtWait) {
      TallyAppend(s.threads, t, At(p));
    }
    forall j: Job ensures Tally(s.threads + [t], Running(j)) == Tally(s.threads, Running(j)) {
      TallyAppend(s.threads, t, Running(j));
    }
  }

  lemma SpawnInv(s: State)
    requires Inv(s) && s.phase == Open
    ensures Inv(Next(s, Spawn))
  {
    hide Tally;
    SpawnCounts(s);
  }

  lemma InvNext(s: State, step: Step)
    requires Inv(s) && Enabled(s, step)
    ensures Inv(Next(s, step))
  {
    match step
    case Go(i) => GoInv(s, i);
    case Spawn => SpawnInv(s);
    case Push(j) => assert s.pushed + [j] == s.popped + (s.queue + [j]);
    case Mark => DestructorInv(s, step);
    case BeginDeath => DestructorInv(s, step);
    case Die => DestructorInv(s, step);
    case _ =>
  }

  lemma InitInv(n: nat)
    ensures Inv(Init(n))
  {
    var t := Thread(false, AtWait, 0);
    forall p: Place ensures Number(Init(n), p) == n * One(p == AtWait) {
      TallyMany([], Spawned(n), t, At(p));
      assert [] + Spawned(n) == Spawned(n);
    }
    forall j: Job ensures Tally(Spawned(n), Running(j)) == 0 {
      TallyMany([], Spawned(n), t, Running(j));
      assert [] + Spawned(n) == Spawned(n);
    }
  }

  lemma {:induction false} RunInv(n: nat, steps: seq<Step>)
    requires After(n, steps).Some?
    ensures Inv(After(n, steps).value)
  {
    if steps == [] {
      InitInv(n);
    } else {
      RunInv(n, steps[..|steps|-1]);
      InvNext(After(n, steps[..|steps|-1]).value, steps[|steps|-1]);
    }
  }

  // ------------------------------------------------------------- what every run keeps

  /** A thread that has passed the die test never pops an empty queue, not even during
      the destructor: all the threads at Pop() together find enough jobs. */
  lemma PopNeverEmpty(n: nat, steps: seq<Step>, i: nat)
    requires After(n, steps).Some?
    requires i < |After(n, steps).value.threads| && After(n, steps).value.threads[i].place == AtPop
    ensures After(n, steps).value.queue != []
    ensures Number(After(n, steps).value, AtPop) <= |After(n, steps).value.queue|
  {
    RunInv(n, steps);
    TallySome(After(n, steps).value.threads, i, At(AtPop));
  }

  /** Jobs are popped in the order in which they were pushed, each at most once, and what
      was popped is being run by one thread or has been run. */
  lemma JobsInOrder(n: nat, steps: seq<Step>, j: Job)
    requires After(n, steps).Some?
    ensures var s := After(n, steps).value;
      && s.pushed == s.popped + s.queue
      && multiset(s.popped)[j] == multiset(s.run)[j] + Tally(s.threads, Running(j))
  {
    RunInv(n, steps);
  }

  ghost predicate AtRest(s: State) {
    s.posting == 0 && forall i: nat :: !CanGo(s, i)
  }

  lemma RestingPlaces(s: State)
    requires Inv(s) && AtRest(s)
    ensures forall i :: 0 <= i < |s.threads| ==>
      s.threads[i].place == Gone || (s.threads[i].place == AtWait && s.tokens == 0)
  {
    forall i | 0 <= i < |s.threads|
      ensures s.threads[i].place == Gone || (s.threads[i].place == AtWait && s.tokens == 0)
    {
      assert !CanGo(s, i);
      if s.threads[i].place == AtPop { TallySome(s.threads, i, At(AtPop)); }
    }
  }

  /** An open pool with at least one thread that comes to rest has run every job. */
  lemma RestMeansAllRun(n: nat, steps: seq<Step>)
    requires After(n, steps).Some? && AtRest(After(n, steps).value)
    requires After(n, steps).value.phase == Open && After(n, steps).value.threads != []
    ensures var s := After(n, steps).value;
      s.queue == [] && s.popped == s.pushed && multiset(s.run) == multiset(s.pushed)
  {
    RunInv(n, steps);
    var s := After(n, steps).value;
    RestingPlaces(s);
    forall p: Place | p in {AtDieTest, AtPop, AtRun, Gone} ensures Number(s, p) == 0 {
      if Number(s, p) > 0 { var i := TallyWitness(s.threads, At(p)); }
    }
    assert s.threads[0].place == AtWait;
    forall j: Job ensures multiset(s.run)[j] == multiset(s.popped)[j] {
      if Tally(s.threads, Running(j)) > 0 { var i := TallyWitness(s.threads, Running(j)); }
    }
  }

  /** The destructor strands nobody: once it has called Die() on every thread, the pool
      comes to rest only when every thread has left Entry(). */
  lemma DestructorStrandsNobody(n: nat, steps: seq<Step>)
    requires After(n, steps).Some? && AtRest(After(n, steps).value)
    requires After(n, steps).value.phase == Death(|After(n, steps).value.threads|)
    ensures var s := After(n, steps).value;
      forall i :: 0 <= i < |s.threads| ==> s.threads[i].place == Gone
  {
    RunInv(n, steps);
    var s := After(n, steps).value;
    RestingPlaces(s);
    forall i | 0 <= i < |s.threads| ensures s.threads[i].place == Gone {
      if s.threads[i].place == AtWait { TallySome(s.threads, i, At(AtWait)); }
    }
  }

  /** Steps a thread has left once the destructor has begun to wake the threads. */
  function StepsLeft(t: Thread): nat {
    match t.place
    case AtPop => 4
    case AtRun => 3
    case AtWait => 2
    case AtDieTest => 1
    case Gone => 0
  }

  /** ... and it does come to rest: every step of a thread is one of its last four. */
  lemma DyingThreadsStop(n: nat, steps: seq<Step>, i: nat)
    requires After(n, steps).Some? && After(n, steps).value.phase.Death? && CanGo(After(n, steps).value, i)
    ensures var s := After(n, steps).value;
      && StepsLeft(GoOn(s, i).threads[i]) < StepsLeft(s.threads[i]) <= 4
      && forall k :: 0 <= k < |s.threads| && k != i ==> GoOn(s, i).threads[k] == s.threads[k]
  {
    RunInv(n, steps);
  }

  /** Die() alone, thread by thread, would not do: with two idle threads, the first Die()
      posts a token that the unmarked thread can take, and it goes on to pop the empty
      queue. */
  lemma DieAloneIsUnsafe()
    ensures exists s: State, i: nat :: (Inv(s) && s.phase == Open && |s.threads| == 2
                                        && CanGo(DieAt(s, 0), i) && CanGo(GoOn(DieAt(s, 0), i), i)
                                        && GoOn(GoOn(DieAt(s, 0), i), i).threads[i].place == AtPop
                                        && GoOn(GoOn(DieAt(s, 0), i), i).queue == [])
  {
    InitInv(2);
    var s := Init(2);
    var u := DieAt(s, 0);
    assert CanGo(u, 1) && CanGo(GoOn(u, 1), 1);
    assert GoOn(GoOn(u, 1), 1).threads[1].place == AtPop;
    assert Inv(s) && s.phase == Open && |s.threads| == 2;
  }
}
