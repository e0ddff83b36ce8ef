/** How many workers are working, waiting and awake, and when m_concurrentThreads bounds the
    number of those that work. */
module PoolBound {
  import opened Basics
  import opened PoolModel
  import opened PoolCounting
  import opened Tallies
  import opened PoolInvariant
  import opened PoolLedger
  import opened PoolTheorems

  // ------------------------------------------------------------------------ census

  /** Workers of the current generation are at work, at Wait(), or on their way to work;
      replaced ones are at work or do not count. */
  lemma {:induction false} CensusOf(ws: seq<Worker>, g: nat)
    requires forall i :: 0 <= i < |ws| ==> Sane(ws[i], g) && ws[i].generation <= g
    ensures Count(ws, InSection) + Count(ws, Waiting(g)) + Count(ws, Awake(g))
         == Count(ws, Member(g)) + Count(ws, Straying(g))
  {
    if ws != [] {
      CensusOf(ws[..|ws| - 1], g);
      var w := ws[|ws| - 1];
      assert Sane(w, g);
    }
  }

  lemma {:induction false} Members(ws: seq<Worker>, g: nat, lo: nat)
    requires lo <= |ws| && forall i :: 0 <= i < |ws| ==> (ws[i].generation == g <==> lo <= i)
    ensures Count(ws, Member(g)) == |ws| - lo
  {
    if ws != [] { Members(ws[..|ws| - 1], g, if lo == |ws| then lo - 1 else lo); }
  }

  lemma StateCensus(s: State)
    requires Machine(s)
    ensures var g := s.Current();
      s.workingThreads + Count(s.workers, Waiting(g)) + Count(s.workers, Awake(g))
      == s.concurrent + Count(s.workers, Straying(g))
  {
    CensusOf(s.workers, s.Current());
    Members(s.workers, s.Current(), |s.workers| - s.concurrent);
  }

  /** In every reachable state the working threads, the idle ones (at Wait()) and those that
      are awake but not yet working are m_concurrentThreads and the replaced workers that still
      work. So "working + idle = concurrent" holds exactly when as many current workers are
      awake as replaced ones work; and m_concurrentThreads bounds the working threads
      exactly when the replaced ones that work are no more than the current ones that do not. */
  lemma Census(n: nat, steps: seq<Step>)
    requires After(n, steps).Some?
    ensures var s := After(n, steps).value;
      && s.semaphores != []
      && var idle, awake, straying := Count(s.workers, Waiting(s.Current())), Count(s.workers, Awake(s.Current())),
                                      Count(s.workers, Straying(s.Current()));
         && s.workingThreads + idle + awake == s.concurrent + straying
         && (s.workingThreads + idle == s.concurrent <==> awake == straying)
         && (s.workingThreads <= s.concurrent <==> straying <= idle + awake)
         && s.workingThreads <= s.concurrent + straying
  {
    RunInv(n, steps);
    StateCensus(After(n, steps).value);
  }

  /** The semaphore's value against the number of idle threads: in every pool at rest the
      value is 0 and all current workers are idle, so the two differ. */
  lemma ValueAtRest(n: nat, steps: seq<Step>)
    requires After(n, steps).Some? && AtRest(After(n, steps).value)
    ensures var s := After(n, steps).value;
      && s.semaphores != [] && s.semaphores[s.Current()].value == 0
      && Count(s.workers, Waiting(s.Current())) == s.concurrent > 0
  {
    var s := After(n, steps).value;
    RunInv(n, steps);
    RestingWorkers(s);
    StateCensus(s);
    if Count(s.workers, Straying(s.Current())) > 0 {
      var i := CountWitness(s.workers, Straying(s.Current()));
      CountSome(s.workers, i, InSection);
    }
  }

  /** Right after the workers have been replaced (or made), nobody idles and the value is 0. */
  lemma ValueAfterReplacement(s: State, n: nat)
    requires Machine(s) && s.workingThreads == 0 && 1 <= n <= INT_MAX
    ensures var t := Replace(s, n);
      t.semaphores[t.Current()].value == 0 == Count(t.workers, Waiting(t.Current()))
  {
    ReplaceShape(s, n);
    ReplacedCount(s, Replace(s, n), n, Waiting(|s.semaphores|));
    if Count(s.workers, Waiting(|s.semaphores|)) > 0 {
      var i := CountWitness(s.workers, Waiting(|s.semaphores|));
    }
  }

  // ---------------------------------------------------------- replacements that are safe

  /** Someone has passed the abort test and has yet to call WorkingThread(). */
  predicate Entering(s: State) {
    exists i :: 0 <= i < |s.workers| && s.workers[i].pc == CallWorking
  }

  predicate Replacing(s: State, step: Step)
    requires Enabled(s, step)
  {
    |Next(s, step).semaphores| > |s.semaphores|
  }

  /** No step of the run replaced the workers while one of them was entering. */
  predicate SafelyReplaced(n: nat, steps: seq<Step>)
    requires After(n, steps).Some?
  {
    steps == []
    || (SafelyReplaced(n, steps[..|steps| - 1])
        && var s := After(n, steps[..|steps| - 1]).value;
           Replacing(s, steps[|steps| - 1]) ==> !Entering(s))
  }

  /** No replaced worker works or is about to. */
  ghost predicate NoStrays(s: State) {
    forall i :: 0 <= i < |s.workers| && s.workers[i].generation < s.Current() ==>
      !AtWork(s.workers[i]) && s.workers[i].pc != CallWorking
  }

  lemma ReplaceNoStrays(s: State, n: nat)
    requires Machine(s) && s.workingThreads == 0 && !Entering(s) && 1 <= n <= INT_MAX
    ensures NoStrays(Replace(s, n))
  {
    var t := Replace(s, n);
    ReplaceShape(s, n);
    NewWorkersAt(|s.semaphores|, n);
    var made := NewWorkers(|s.semaphores|, n);
    assert forall i :: |s.workers| <= i < |t.workers| ==> t.workers[i] == made[i - |s.workers|];
    forall i | 0 <= i < |s.workers|
      ensures !AtWork(t.workers[i]) && t.workers[i].pc != CallWorking
    {
      assert t.workers[i] == AbortThreads(s.workers, s.threads)[i];
      IdleWorker(s, i);
    }
  }

  lemma AnnouncedSame(s: State)
    requires Machine(s) && NoStrays(s)
    ensures var s1 := Announced(s);
      && Machine(s1) && NoStrays(s1)
      && s1.schedule == s.schedule <= INT_MAX && s1.workingThreads == s.workingThreads >= 0
      && (Entering(s1) ==> Entering(s)) && |s1.semaphores| == |s.semaphores| > 0
  {
  }

  lemma SettleReplaces(s: State)
    requires s.semaphores != [] && s.workingThreads == 0 && s.queue == [] && s.schedule != 0
    ensures Settle(s) == Replace(Announced(s), s.schedule)
  {
    hide Replace;
  }

  lemma SettleNoStrays(s: State)
    requires Machine(s) && NoStrays(s)
    requires |Settle(s).semaphores| > |s.semaphores| ==> !Entering(s)
    ensures NoStrays(Settle(s))
  {
    AnnouncedSame(s);
    hide Machine, NoStrays, Announced, Replace, Settle, Entering;
    if s.workingThreads <= 0 && s.queue == [] && s.schedule != 0 {
      SettleReplaces(s);
      ReplaceShape(Announced(s), s.schedule);
      ReplaceNoStrays(Announced(s), s.schedule);
    } else {
      SettleSameWorkers(s);
      SameNoStrays(s, Settle(s));
    }
  }

  lemma SameNoStrays(s: State, t: State)
    requires NoStrays(s) && t.workers == s.workers && |t.semaphores| == |s.semaphores|
    ensures NoStrays(t)
  {
  }

  lemma SettleSameWorkers(s: State)
    requires s.semaphores != [] && !(s.workingThreads <= 0 && s.queue == [] && s.schedule != 0)
    ensures Settle(s).workers == s.workers && |Settle(s).semaphores| == |s.semaphores|
  {
  }

  lemma LocalNoStrays(s: State, i: nat)
    requires Machine(s) && NoStrays(s) && CanStep(s, i) && !Departing(s, i)
    ensures NoStrays(WorkerStep(s, i))
  {
    hide Machine;
    var t := WorkerStep(s, i);
    assert Sane(s.workers[i], s.Current()) by { SaneWorker(s, i); }
    assert t.workers == s.workers[i := t.workers[i]];
  }

  lemma SaneWorker(s: State, i: nat)
    requires Machine(s) && i < |s.workers|
    ensures Sane(s.workers[i], s.Current())
  {
  }

  lemma DepartedNoStrays(s: State, i: nat)
    requires NoStrays(s) && Departing(s, i)
    ensures NoStrays(Departed(s, i)) && (Entering(Departed(s, i)) ==> Entering(s))
  {
    var d := Departed(s, i);
    assert d.workers == s.workers[i := d.workers[i]];
    assert forall j :: 0 <= j < |s.workers| && j != i ==> d.workers[j] == s.workers[j];
  }

  lemma LeavingNoStrays(r: State, i: nat)
    requires NoStrays(r) && i < |r.workers| && !r.workers[i].working
    ensures NoStrays(SetWorker(r, i, r.workers[i].(pc := Leaving)))
  {
  }

  lemma DepartNoStrays(s: State, i: nat)
    requires Machine(s) && NoStrays(s) && CanStep(s, i) && Departing(s, i)
    requires |WorkerStep(s, i).semaphores| > |s.semaphores| ==> !Entering(s)
    ensures NoStrays(WorkerStep(s, i))
  {
    var d := Departed(s, i);
    Departs(s, i);
    DepartedNoStrays(s, i);
    DepartGrows(s, i);
    SaneWorker(s, i);
    hide Machine, NoStrays, Settle, Entering;
    SettleNoStrays(d);
    if s.workers[i].pc == CallWaiting && !WaitingThread(SetWorker(s, i, s.workers[i].(pc := AtWait))).1 {
      Refused(s, i);
      LeavingNoStrays(Settle(d), i);
    } else {
      WaitingIsSettle(s, i);
    }
  }

  lemma DepartGrows(s: State, i: nat)
    requires CanStep(s, i) && Departing(s, i)
    ensures |Settle(Departed(s, i)).semaphores| == |WorkerStep(s, i).semaphores|
  {
  }

  lemma NoStraysNext(s: State, step: Step)
    requires Machine(s) && NoStrays(s) && Enabled(s, step) && (Replacing(s, step) ==> !Entering(s))
    ensures NoStrays(Next(s, step))
  {
    match step
    case Set(n) =>
      if n != s.concurrent && s.workingThreads == 0 {
        ReplaceShape(s, n);
        ReplaceNoStrays(s, n);
      }
    case Run(i) => if Departing(s, i) { DepartNoStrays(s, i); } else { LocalNoStrays(s, i); }
    case _ =>
  }

  lemma {:induction false} SafeRunsStay(n: nat, steps: seq<Step>)
    requires After(n, steps).Some? && SafelyReplaced(n, steps)
    ensures NoStrays(After(n, steps).value)
  {
    if steps == [] {
      InitFresh(n);
      NewWorkersAt(1, n);
    } else {
      var before := steps[..|steps| - 1];
      SafeRunsStay(n, before);
      RunInv(n, before);
      hide Machine, Ledger, NoStrays, Next;
      NoStraysNext(After(n, before).value, steps[|steps| - 1]);
    }
  }

  /** As long as workers are only replaced while none of them is entering, m_concurrentThreads
      bounds the number of working threads. */
  lemma SafeReplacementsKeepBound(n: nat, steps: seq<Step>)
    requires After(n, steps).Some? && SafelyReplaced(n, steps)
    ensures After(n, steps).value.workingThreads <= After(n, steps).value.concurrent
  {
    SafeRunsStay(n, steps);
    Census(n, steps);
    var s := After(n, steps).value;
    if Count(s.workers, Straying(s.Current())) > 0 {
      var i := CountWitness(s.workers, Straying(s.Current()));
    }
  }

  // ------------------------------------------------------ replacements that are not safe

  /** Nobody but worker i has moved, and the pool's counts are the same. */
  ghost predicate OnlyMoved(s: State, t: State, i: nat) {
    && t.concurrent == s.concurrent && |t.semaphores| == |s.semaphores| && |t.workers| == |s.workers|
    && forall j :: 0 <= j < |s.workers| && j != i ==> t.workers[j] == s.workers[j]
  }

  function Above(log: seq<Event>): (x: TaskId)
    ensures forall e :: e in log && e.Added? ==> e.task < x
  {
    if log == [] then 0 else
    var x := Above(log[..|log| - 1]);
    var e := log[|log| - 1];
    assert log == log[..|log| - 1] + [e];
    if e.Added? && e.task >= x then e.task + 1 else x
  }

  /** The owner ends the batch and adds a task: the current semaphore gets a token. */
  lemma Token(n: nat, steps: seq<Step>, s: State) returns (more: seq<Step>, t: State)
    requires After(n, steps) == Some(s) && s.workingThreads < s.concurrent
    ensures After(n, more) == Some(t) && steps <= more && t.workers == s.workers
    ensures |t.semaphores| == |s.semaphores| > 0
    ensures t.concurrent == s.concurrent && t.workingThreads == s.workingThreads
    ensures t.semaphores[t.Current()].value > 0
  {
    RunInv(n, steps);
    EndsBatch(s);
    more := Then(n, steps, s, End);
    var u := Next(s, End);
    var add := Add(Some(Above(u.log)), false);
    RunInv(n, more);
    AddsToken(u, Above(u.log));
    hide Ledger, Machine;
    more := Then(n, more, u, add);
    t := Next(u, add);
  }

  lemma EndsBatch(s: State)
    requires Machine(s)
    ensures var t := Next(s, End);
      && t.workers == s.workers && |t.semaphores| == |s.semaphores| > 0 && !t.batching
      && t.concurrent == s.concurrent && t.workingThreads == s.workingThreads
  {
  }

  lemma AddsToken(s: State, task: TaskId)
    requires Machine(s) && !s.batching && s.workingThreads < s.concurrent
    ensures var t := AddTask(s, Some(task), false);
      && t.workers == s.workers && |t.semaphores| == |s.semaphores| > 0
      && t.concurrent == s.concurrent && t.workingThreads == s.workingThreads
      && t.semaphores[t.Current()].value > 0
  {
    var p := Pushed(s, task, false);
    assert Machine(p);
    assert |p.queue| > 0;
    assert AddTask(s, Some(task), false) == AwakeNeeded(p);
    var k := Min(|p.queue|, SizeT(p.concurrent - p.workingThreads));
    assert p.concurrent - p.workingThreads <= INT_MAX;
    assert k > 0;
    assert AwakeNeeded(p) == PostCurrent(p, k);
    assert p.concurrent > 0;
    hide Machine, AwakeNeeded, AddTask, Pushed;
    Posts(p, k);
  }

  /** A current worker that does not work is brought to work. */
  lemma BringIn(n: nat, steps: seq<Step>, s: State, i: nat) returns (more: seq<Step>, t: State)
    requires After(n, steps) == Some(s) && i < |s.workers| && s.workers[i].generation == s.Current()
    requires Is(s.workers[i], Waiting(s.Current())) || Is(s.workers[i], Awake(s.Current()))
    requires s.workingThreads < s.concurrent
    ensures After(n, more) == Some(t) && steps <= more && OnlyMoved(s, t, i)
    ensures t.workingThreads == s.workingThreads + 1
  {
    RunInv(n, steps);
    SaneWorker(s, i);
    CurrentGoesOn(s, i);
    hide Ledger, Machine, Sane, After, OnlyMoved;
    if s.workers[i].pc == AtWait {
      more, t := FromWait(n, steps, s, i);
    } else if s.workers[i].pc == LoopTest {
      more, t := ThroughTest(n, steps, s, i);
    } else {
      more, t := ToWork(n, steps, s, i);
    }
  }

  lemma CurrentGoesOn(s: State, i: nat)
    requires s.semaphores != [] && i < |s.workers| && s.workers[i].generation == s.Current()
    requires Sane(s.workers[i], s.Current())
    ensures !s.workers[i].aborted && (s.workers[i].pc !in {AtWait, Destroyed} ==> CanStep(s, i))
  {
  }

  lemma FromWait(n: nat, steps: seq<Step>, s: State, i: nat) returns (more: seq<Step>, t: State)
    requires After(n, steps) == Some(s) && s.workingThreads < s.concurrent && i < |s.workers|
    requires s.workers[i].generation == s.Current() && s.workers[i].pc == AtWait && !s.workers[i].aborted
    ensures After(n, more) == Some(t) && steps <= more && OnlyMoved(s, t, i)
    ensures t.workingThreads == s.workingThreads + 1
  {
    hide After;
    var first, u := Token(n, steps, s);
    more, t := ThroughTest(n, first, u, i);
  }

  lemma ThroughTest(n: nat, steps: seq<Step>, s: State, i: nat) returns (more: seq<Step>, t: State)
    requires After(n, steps) == Some(s) && CanStep(s, i) && !s.workers[i].aborted
    requires s.workers[i].pc == AtWait || (s.workers[i].pc == LoopTest && !s.workers[i].working)
    ensures After(n, more) == Some(t) && steps <= more && OnlyMoved(s, t, i)
    ensures t.workingThreads == s.workingThreads + 1
  {
    hide After, OnlyMoved;
    var first, u := OneRun(n, steps, s, i);
    more, t := ToWork(n, first, u, i);
    MovedTwice(s, u, t, i);
  }

  lemma MovedTwice(s: State, t: State, u: State, i: nat)
    requires OnlyMoved(s, t, i) && OnlyMoved(t, u, i)
    ensures OnlyMoved(s, u, i)
  {
  }

  lemma ToWork(n: nat, steps: seq<Step>, s: State, i: nat) returns (more: seq<Step>, t: State)
    requires After(n, steps) == Some(s) && CanStep(s, i) && !s.workers[i].aborted
    requires s.workers[i].pc in {AbortTest, CallWorking}
    ensures After(n, more) == Some(t) && steps <= more && OnlyMoved(s, t, i)
    ensures t.workingThreads == s.workingThreads + 1
  {
    hide After, OnlyMoved;
    if s.workers[i].pc == AbortTest {
      var first, u := OneRun(n, steps, s, i);
      more, t := OneRun(n, first, u, i);
      MovedTwice(s, u, t, i);
    } else {
      more, t := OneRun(n, steps, s, i);
    }
  }

  lemma OneRun(n: nat, steps: seq<Step>, s: State, i: nat) returns (more: seq<Step>, t: State)
    requires After(n, steps) == Some(s) && CanStep(s, i) && !s.workers[i].aborted
    requires s.workers[i].pc in {AtWait, AbortTest, CallWorking}
      || (s.workers[i].pc == LoopTest && !s.workers[i].working)
    ensures After(n, more) == Some(t) && steps <= more && OnlyMoved(s, t, i)
    ensures CanStep(t, i) && t.workers[i].aborted == s.workers[i].aborted
    ensures t.workers[i].pc == if s.workers[i].pc in {AtWait, LoopTest} then AbortTest
                               else if s.workers[i].pc == AbortTest then CallWorking else Fetch
    ensures t.workingThreads == s.workingThreads + if s.workers[i].pc == CallWorking then 1 else 0
  {
    more := Then(n, steps, s, Run(i));
    t := Next(s, Run(i));
  }

  /** With a replaced worker entering, the run can go on until more threads work than
      m_concurrentThreads says: first the current workers go to work, then that one. */
  lemma {:induction false} EnteringExceeds(n: nat, steps: seq<Step>, s: State, i: nat) returns (more: seq<Step>)
    requires After(n, steps) == Some(s)
    requires i < |s.workers| && s.workers[i].generation < s.Current() && s.workers[i].pc == CallWorking
    ensures After(n, more).Some? && steps <= more
    ensures |After(n, more).value.semaphores| == |s.semaphores|
    ensures After(n, more).value.workingThreads > After(n, more).value.concurrent
    decreases s.concurrent - s.workingThreads
  {
    RunInv(n, steps);
    if s.workingThreads >= s.concurrent {
      more := Then(n, steps, s, Run(i));
    } else {
      StateCensus(s);
      var j := if Count(s.workers, Waiting(s.Current())) > 0 then SomeWorker(s.workers, Waiting(s.Current()))
               else SomeWorker(s.workers, Awake(s.Current()));
      var t;
      more, t := BringIn(n, steps, s, j);
      more := EnteringExceeds(n, more, t, i);
    }
  }

  ghost function SomeWorker(ws: seq<Worker>, k: Situation): (i: nat)
    requires Count(ws, k) > 0
    ensures i < |ws| && Is(ws[i], k)
  {
    var w := ws[|ws| - 1];
    if Is(w, k) then |ws| - 1 else SomeWorker(ws[..|ws| - 1], k)
  }

  lemma SettleKeepsPlace(s: State, i: nat)
    requires s.semaphores != [] && i < |s.workers|
    ensures i < |Settle(s).workers|
    ensures Settle(s).workers[i].pc == s.workers[i].pc && Settle(s).workers[i].generation == s.workers[i].generation
  {
    hide NewWorkers, PostMany, DropOwner;
  }

  lemma DepartKeepsPlace(s: State, i: nat, j: nat)
    requires i < |s.workers| && i != j && CanStep(s, j) && Departing(s, j)
    ensures var t := WorkerStep(s, j);
      i < |t.workers| && t.workers[i].pc == s.workers[i].pc && t.workers[i].generation == s.workers[i].generation
  {
    var d := Departed(s, j);
    assert d.workers[i] == s.workers[i];
    SettleKeepsPlace(d, i);
    hide AbortThreads, NewWorkers, PostMany, DropOwner, Settle;
  }

  lemma NextKeepsPlace(s: State, step: Step, i: nat)
    requires Enabled(s, step) && Replacing(s, step) && i < |s.workers| && s.workers[i].pc == CallWorking
    ensures var t := Next(s, step);
      i < |t.workers| && t.workers[i].pc == CallWorking && t.workers[i].generation == s.workers[i].generation
  {
    if step.Run? {
      var j := step.worker;
      if Departing(s, j) { DepartKeepsPlace(s, i, j); }
    }
  }

  lemma ReplacesOnce(s: State, step: Step)
    requires Enabled(s, step) && Replacing(s, step)
    ensures |Next(s, step).semaphores| == |s.semaphores| + 1
  {
    if step.Run? && Departing(s, step.worker) {
      var d := Departed(s, step.worker);
      DepartGrows(s, step.worker);
      SettlesOnce(d);
      hide Settle;
    }
  }

  lemma SettlesOnce(s: State)
    requires s.semaphores != []
    ensures |Settle(s).semaphores| <= |s.semaphores| + 1
  {
    hide AbortThreads, NewWorkers, PostMany;
  }

  /** A replacement while a worker is entering has, in every run, a continuation without
      another replacement in which more threads work than m_concurrentThreads says. */
  lemma UnsafeReplacementBreaksBound(n: nat, steps: seq<Step>, step: Step)
    requires After(n, steps).Some? && Enabled(After(n, steps).value, step)
    requires Replacing(After(n, steps).value, step) && Entering(After(n, steps).value)
    ensures exists more :: (After(n, more).Some? && steps + [step] <= more
                            && var t := After(n, more).value;
                               |t.semaphores| == |After(n, steps).value.semaphores| + 1
                               && t.workingThreads > t.concurrent)
  {
    var s := After(n, steps).value;
    RunInv(n, steps);
    var i: nat :| i < |s.workers| && s.workers[i].pc == CallWorking;
    assert s.workers[i].generation <= s.Current();
    var next := Then(n, steps, s, step);
    NextKeepsPlace(s, step, i);
    ReplacesOnce(s, step);
    hide Machine, Ledger, Next;
    var more := EnteringExceeds(n, next, Next(s, step), i);
  }

  /** Such a run: two threads past the abort test while the pool is told to use one. */
  lemma WorkingCanExceedConcurrent()
    ensures exists n, steps :: (After(n, steps).Some?
                                && After(n, steps).value.workingThreads > After(n, steps).value.concurrent)
  {
    var steps, s := PairReady();
    RunInv(2, steps);
    ReplaceShape(s, 1);
    UnsafeReplacementBreaksBound(2, steps, Set(1));
  }
}
