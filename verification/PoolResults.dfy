/** What a caller of the pool can rely on, for every schedule and every moment of a Ctrl-C. */
module PoolResults {
  import opened Common
  import opened TaskQueue
  import opened WorkerPool
  import opened PoolInvariant
  import opened PoolTermination

  ghost predicate Reachable(c: Config, s: Pool) {
    exists actions :: Run(c, Start(c), actions) == Some(s)
  }

  lemma ReachableIsInvariant(c: Config, s: Pool)
    requires Reachable(c, s)
    ensures Invariant(c, s)
  {
    var actions :| Run(c, Start(c), actions) == Some(s);
    StartOk(c);
    RunKeeps(c, Start(c), actions);
  }

  /** Worker w has task t queued, in hand or running. */
  predicate Carries(s: Pool, w: nat, t: nat)
    requires w < |s.workers|
  {
    Execute(t) in Hand(s.workers[w]) + s.workers[w].queue.deque
  }

  /** A live worker carries the task it has been assigned and no other. */
  lemma CarriedIsAssigned(c: Config, s: Pool, w: nat)
    requires WorkersOk(c, s) && w < |s.workers|
    ensures !s.workers[w].place.Stopped? ==> forall t :: Carries(s, w, t) <==> s.jobs[w] == Assigned(t)
    ensures !s.workers[w].place.Stopped? ==> !s.workers[w].queue.reader.Failed?
    ensures s.workers[w].place.Stopped? ==> s.workers[w].queue.reader.Outside?
  {
    var wk, expected := s.workers[w], Expected(s, w);
    assert WorkerOk(wk, expected, SignalOwed(s.main, w));
    if !wk.place.Stopped? {
      if s.jobs[w].Assigned? {
        assert expected[0] == Execute(s.jobs[w].task);
      }
      forall t ensures Execute(t) !in Control(s.main, s.interrupted, w) {
      }
    }
  }

  /** Every worker id is in exactly one place: its job is free, assigned or answered, and that is to say
      that the id is on the stack, or a task is with the worker, or its answer is waiting. A worker that
      stopped with a task was stopped by a Ctrl-C or by the task itself. The concurrency limit is kept,
      and no assertion, KeyError, TypeError or IndexError can happen. */
  lemma EveryIdInOnePlace(c: Config, s: Pool, w: nat)
    requires Reachable(c, s) && w < WorkerCount(c)
    ensures !s.main.Crashed? && |s.workers| == |s.jobs| == WorkerCount(c) && !s.workers[w].queue.reader.Failed?
    ensures Distinct(s.available) && |s.available| + s.active == WorkerCount(c) && 0 <= s.active
    ensures s.jobs[w].Free? <==> w in s.available
    ensures forall t :: s.jobs[w] == Answered(t) <==> Finished(w, t) in s.response
    ensures !s.workers[w].place.Stopped? ==> forall t :: s.jobs[w] == Assigned(t) <==> Carries(s, w, t)
    ensures s.workers[w].place.Stopped? && s.jobs[w].Assigned? ==> s.interrupted || Died(c, s, w)
    ensures forall v :: 0 <= v < |s.jobs| && v != w && !s.jobs[v].Free? && !s.jobs[w].Free? ==> s.jobs[v].task != s.jobs[w].task
    ensures !s.jobs[w].Free? ==> s.jobs[w].task < s.started && s.jobs[w].task !in s.returned
  {
    ReachableIsInvariant(c, s);
    CarriedIsAssigned(c, s, w);
    if s.workers[w].place.Stopped? && s.jobs[w].Assigned? && !s.interrupted {
      BusyMeansActive(s.jobs, s.available, s.active, w);
    }
  }

  /** The limit asked for caps the workers, and with them the tasks that run at once; and it is used: the
      scheduler waits with tasks unstarted only if every worker has one. */
  lemma ConcurrencyIsCapped(c: Config, s: Pool)
    requires Reachable(c, s)
    ensures |s.workers| == |s.available| + s.active
    ensures |s.workers| == if c.limit < 0 then 0 else if c.limit < |c.outcomes| then c.limit else |c.outcomes|
    ensures |set w | 0 <= w < |s.workers| && (s.workers[w].place.Running? || s.workers[w].place.Responding?)| <= |s.workers|
    ensures s.main.Awaiting? && s.started < |c.outcomes| ==> s.active == |s.workers|
  {
    ReachableIsInvariant(c, s);
    var busy := set w | 0 <= w < |s.workers| && (s.workers[w].place.Running? || s.workers[w].place.Responding?);
    assert busy <= Below(|s.workers|);
    SubsetSize(busy, Below(|s.workers|));
  }

  /** The response queue holds bare ids during construction only, each worker's once, and pairs
      afterwards only; construction ends when every worker has been heard from. */
  lemma ResponsesAreUnmixed(c: Config, s: Pool)
    requires Reachable(c, s)
    ensures Distinct(s.response)
    ensures BootPhase(s.main) ==> forall r :: r in s.response ==> r.Ready? && r.worker in s.uninitialized
    ensures !BootPhase(s.main) ==> forall r :: r in s.response ==> r.Finished?
    ensures !BootPhase(s.main) ==>
              forall w :: 0 <= w < |s.workers| ==> !s.workers[w].place.Unborn? && !s.workers[w].place.Booting?
  {
    ReachableIsInvariant(c, s);
  }

  /** No task runs twice and no task id is returned twice, not even around an interrupt; every id
      returned belongs to a task that has run. */
  lemma AtMostOnce(c: Config, s: Pool)
    requires Reachable(c, s)
    ensures Distinct(s.ran) && Distinct(s.returned) && |s.returned| + s.active == s.started == |s.records| <= |c.outcomes|
    ensures forall t :: t in s.returned ==> t in s.ran && !Exits(c, t)
    ensures forall t :: t in s.ran ==> t < s.started && s.records[t] == Some(c.outcomes[t])
  {
    ReachableIsInvariant(c, s);
  }

  // ----- The outcome of a run -----

  /** What running the targets one after another returns. */
  function SequentialMap(c: Config): (r: seq<Option<int>>)
    requires forall t :: 0 <= t < |c.outcomes| ==> c.outcomes[t].Value?
  {
    seq(|c.outcomes|, t requires 0 <= t < |c.outcomes| => Some(c.outcomes[t].value))
  }

  ghost predicate IsErrorOf(c: Config, e: ErrorString) {
    e.task < |c.outcomes| && c.outcomes[e.task] == Raised(e.trace)
  }

  /** The failures of a list of different tasks, each counted once. */
  lemma {:induction false} ErrorsCounted(c: Config, tasks: seq<nat>, e: ErrorString)
    requires Distinct(tasks)
    ensures multiset(ErrorsOf(c, tasks))[e] == if e.task in tasks && IsErrorOf(c, e) then 1 else 0
  {
    if tasks != [] {
      var front, t := tasks[..|tasks| - 1], tasks[|tasks| - 1];
      ErrorsCounted(c, front, e);
      assert tasks == front + [t];
    }
  }

  /** A run that was not interrupted ends, if it does, with every task run and returned exactly once, and
      with every worker stopped; so no target can have ended its worker. */
  lemma EveryTaskOnce(c: Config, s: Pool)
    requires Reachable(c, s) && Ended(s) && !s.interrupted
    ensures |s.ran| == |s.returned| == |c.outcomes| && Distinct(s.ran) && Distinct(s.returned)
    ensures forall t: nat :: t < |c.outcomes| ==> t in s.ran && t in s.returned
    ensures forall w :: 0 <= w < |s.workers| ==> s.workers[w].place.Stopped?
    ensures s.errors == ErrorsOf(c, s.returned) && NoneExits(c)
  {
    ReachableIsInvariant(c, s);
    Pigeonhole(s.returned, |c.outcomes|);
    Pigeonhole(s.ran, |c.outcomes|);
    DistinctSubset(s.returned, s.ran);
    forall t | 0 <= t < |c.outcomes| ensures !c.outcomes[t].Exited? {
      assert t in s.returned;
    }
  }

  /** error_strings holds the message of each failed task once, and nothing else. */
  lemma ErrorsAreTheFailures(c: Config, s: Pool)
    requires Reachable(c, s) && Ended(s) && !s.interrupted
    ensures forall e :: multiset(s.errors)[e] == if e.task < |c.outcomes| && c.outcomes[e.task] == Raised(e.trace) then 1 else 0
    ensures s.errors != [] <==> exists t :: 0 <= t < |c.outcomes| && c.outcomes[t].Raised?
  {
    EveryTaskOnce(c, s);
    forall e ensures multiset(s.errors)[e] == if IsErrorOf(c, e) then 1 else 0 {
      ErrorsCounted(c, s.returned, e);
    }
    forall t | 0 <= t < |c.outcomes| && c.outcomes[t].Raised? ensures s.errors != [] {
      assert multiset(s.errors)[ErrorString(t, c.outcomes[t].trace)] == 1;
    }
    if s.errors != [] {
      assert s.errors[0] in multiset(s.errors);
      assert IsErrorOf(c, s.errors[0]);
    }
  }

  /** A run that was not interrupted returns what the sequential map returns if no target fails, and
      raises if and only if one does. */
  lemma RefinesSequentialMap(c: Config, s: Pool)
    requires Reachable(c, s) && Ended(s) && !s.interrupted
    ensures s.main.Returned? <==> forall t :: 0 <= t < |c.outcomes| ==> c.outcomes[t].Value?
    ensures s.main.Returned? ==> s.main.results == SequentialMap(c) && |s.main.results| == |c.outcomes|
    ensures s.main.Returned? ==> forall t :: 0 <= t < |c.outcomes| ==> s.main.results[t] == Some(c.outcomes[t].value)
    ensures s.main.RaisedErrors? <==> exists t :: 0 <= t < |c.outcomes| && c.outcomes[t].Raised?
  {
    ReachableIsInvariant(c, s);
    EveryTaskOnce(c, s);
    ErrorsAreTheFailures(c, s);
  }

  lemma DistinctSubset(xs: seq<nat>, ys: seq<nat>)
    requires Distinct(xs) && Distinct(ys) && forall x :: x in xs ==> x in ys
    ensures |xs| <= |ys|
  {
    DistinctSize(xs);
    DistinctSize(ys);
    SubsetSize(Elements(xs), Elements(ys));
  }

  /** Once every queue has its wake-up, no live thread is stuck in its lock: it can take the lock, or
      the KeyboardInterrupt reaches it; when the interrupt is re-raised no thread is left. */
  lemma InterruptReachesEveryThread(c: Config, s: Pool, w: nat)
    requires Reachable(c, s) && s.interrupted && w < |s.workers|
    ensures s.main.JoiningInterrupted? && !s.workers[w].place.Stopped? ==>
              && s.workers[w].interruptPending && (Interruptible(s.workers[w]) || !Blocked(s.workers[w].queue))
              && (CanMove(c, s, Work(w)) || CanMove(c, s, Deliver(w)))
    ensures !InterruptPhase(s.main) ==> s.workers[w].place.Stopped?
    ensures Next(c, s, Deliver(w)).Some? ==>
              s.workers[w].interruptPending && !(s.workers[w].place.Receiving? && s.workers[w].queue.reader.Acquiring?)
    ensures Ended(s) ==> s.main.Reraised?
  {
    ReachableIsInvariant(c, s);
    if s.main.JoiningInterrupted? && !s.workers[w].place.Stopped? {
      BusyWorkerMoves(c, s, w);
    }
  }

  // ----- Deadlock freedom -----

  ghost predicate Stuck(c: Config, s: Pool) { forall a :: !CanMove(c, s, a) }

  ghost predicate NeverStuck(c: Config) {
    forall s :: Reachable(c, s) && !Ended(s) ==> !Stuck(c, s)
  }

  lemma {:induction false} RunExtends(c: Config, s: Pool, actions: seq<Action>, a: Action)
    requires Run(c, s, actions).Some? && Next(c, Run(c, s, actions).value, a).Some?
    ensures Run(c, s, actions + [a]) == Next(c, Run(c, s, actions).value, a)
    decreases |actions|
  {
    if actions == [] {
      var t := Next(c, s, a).value;
      assert [a][1..] == [] && Run(c, t, []) == Some(t);
    } else {
      assert (actions + [a])[1..] == actions[1..] + [a];
      RunExtends(c, Next(c, s, actions[0]).value, actions[1..], a);
    }
  }

  lemma OwnStepsDoNotInterrupt(c: Config, s: Pool, a: Action)
    requires CanMove(c, s, a)
    ensures Next(c, s, a).value.interrupted == s.interrupted
  {
  }

  /** Lets the pool's own threads go on until none of them can. */
  lemma {:induction false} Exhaust(c: Config, s: Pool, actions: seq<Action>) returns (t: Pool)
    requires Run(c, Start(c), actions) == Some(s) && !s.interrupted
    ensures Reachable(c, t) && !t.interrupted && Stuck(c, t)
    decreases Measure(c, s)
  {
    assert Reachable(c, s);
    if Stuck(c, s) {
      t := s;
    } else {
      var a :| CanMove(c, s, a);
      ReachableIsInvariant(c, s);
      StepDescends(c, s, a);
      OwnStepsDoNotInterrupt(c, s, a);
      RunExtends(c, Start(c), actions, a);
      t := Exhaust(c, Next(c, s, a).value, actions + [a]);
    }
  }

  /** Without a worker the scheduler waits at once for a response that nobody will send. */
  lemma NoWorkerIsStuck(c: Config) returns (s: Pool)
    requires c.limit < 1 && c.outcomes != []
    ensures Reachable(c, s) && !Ended(s) && Stuck(c, s)
  {
    var start := Start(c);
    var s1, s2 := start.(main := Bootstrapping(0)), start.(main := Scheduling);
    s := start.(main := Awaiting);
    assert Run(c, s2, [Main]) == Some(s) by { assert Run(c, s, []) == Some(s); }
    assert Run(c, s1, [Main, Main]) == Some(s) by { assert [Main, Main][1..] == [Main]; }
    assert Run(c, start, [Main, Main, Main]) == Some(s) by { assert [Main, Main, Main][1..] == [Main, Main]; }
  }

  /** The pool is free of deadlock exactly when there is nothing to do, or there is a worker and no target
      takes its worker down: otherwise the scheduler comes to wait for a response that nobody will send. */
  lemma DeadlockFreedom(c: Config)
    ensures NeverStuck(c) <==> c.outcomes == [] || (c.limit >= 1 && forall t :: 0 <= t < |c.outcomes| ==> !c.outcomes[t].Exited?)
  {
    if Responsive(c) {
      forall s | Reachable(c, s) && !Ended(s) ensures !Stuck(c, s) {
        ReachableIsInvariant(c, s);
        var a := SomeoneMoves(c, s);
      }
    } else if c.limit < 1 {
      var s := NoWorkerIsStuck(c);
    } else {
      assert Run(c, Start(c), []) == Some(Start(c));
      var s := Exhaust(c, Start(c), []);
      if Ended(s) {
        EveryTaskOnce(c, s);
      }
    }
  }

  /** The scheduler waits for a response that cannot come; a Ctrl-C is still possible. */
  ghost predicate WaitsForEver(c: Config, s: Pool) {
    !Responsive(c) && !s.interrupted && s.main.Awaiting? && s.response == [] && Next(c, s, CtrlC).Some?
  }

  lemma StuckIsWaiting(c: Config, s: Pool)
    requires Invariant(c, s) && Stuck(c, s) && !Ended(s)
    ensures WaitsForEver(c, s)
  {
    if Responsive(c) || s.interrupted || !s.main.Awaiting? {
      var a := SomeoneMoves(c, s);
    }
    assert !CanMove(c, s, Main);
  }

  /** Every schedule is finite, with a bound known at the start. Where no thread can move any more the run
      has ended, or the scheduler waits for ever, which it never does after a Ctrl-C. */
  lemma EveryScheduleEnds(c: Config, actions: seq<Action>, s: Pool)
    requires Run(c, Start(c), actions) == Some(s)
    ensures |actions| <= Measure(c, Start(c))
    ensures Stuck(c, s) ==> Ended(s) || WaitsForEver(c, s)
  {
    StartOk(c);
    RunsEnd(c, Start(c), actions);
    RunKeeps(c, Start(c), actions);
    if Stuck(c, s) && !Ended(s) {
      StuckIsWaiting(c, s);
    }
  }

  // ----- Running the pool -----

  /** The first thread that can move, if any. */
  method PickThread(c: Config, s: Pool) returns (a: Option<Action>)
    ensures a.Some? ==> CanMove(c, s, a.value)
    ensures a.None? ==> Stuck(c, s)
  {
    if CanMove(c, s, Main) {
      return Some(Main);
    }
    for w := 0 to |s.workers|
      invariant forall v :: 0 <= v < w ==> !CanMove(c, s, Work(v)) && !CanMove(c, s, Deliver(v))
    {
      if CanMove(c, s, Work(w)) {
        return Some(Work(w));
      }
      if CanMove(c, s, Deliver(w)) {
        return Some(Deliver(w));
      }
    }
    a := None;
  }

  /** _RunParallelTasks under any scheduler, whichever thread it prefers at each point and whenever it
      presses Ctrl-C. Unless interrupted it does what the sequential map does; or it waits for ever, and
      then there is no worker for its tasks or a target has taken its worker down. */
  method RunParallelTasks(c: Config, scheduler: Pool -> Action) returns (s: Pool)
    ensures Reachable(c, s) && (Ended(s) || Stuck(c, s))
    ensures !Ended(s) ==> WaitsForEver(c, s)
    ensures !Ended(s) ==> c.outcomes != [] && (c.limit < 1 || exists t :: 0 <= t < |c.outcomes| && c.outcomes[t].Exited?)
    ensures !s.main.Crashed? && (s.interrupted <==> s.main.Reraised?)
    ensures Ended(s) && !s.interrupted ==> s.main.Returned? || s.main.RaisedErrors?
    ensures Ended(s) && (forall t :: 0 <= t < |c.outcomes| ==> c.outcomes[t].Value?) && !s.interrupted ==> s.main.Returned?
    ensures s.main.Returned? ==> (forall t :: 0 <= t < |c.outcomes| ==> c.outcomes[t].Value?) && s.main.results == SequentialMap(c)
    ensures s.main.RaisedErrors? ==>
              forall e :: multiset(s.errors)[e] == if e.task < |c.outcomes| && c.outcomes[e.task] == Raised(e.trace) then 1 else 0
    ensures Ended(s) && !s.interrupted && (exists t :: 0 <= t < |c.outcomes| && c.outcomes[t].Raised?) ==> s.main.RaisedErrors?
  {
    s := Start(c);
    ghost var trail: seq<Action> := [];
    while !Ended(s)
      invariant Run(c, Start(c), trail) == Some(s) && Reachable(c, s)
      decreases Measure(c, s)
    {
      ReachableIsInvariant(c, s);
      var a := scheduler(s);
      if Next(c, s, a).None? {
        var picked := PickThread(c, s);
        if picked.None? {
          StuckIsWaiting(c, s);
          return;
        }
        a := picked.value;
      }
      StepDescends(c, s, a);
      RunExtends(c, Start(c), trail, a);
      trail := trail + [a];
      s := Next(c, s, a).value;
    }
    ReachableIsInvariant(c, s);
    if !s.interrupted {
      RefinesSequentialMap(c, s);
      ErrorsAreTheFailures(c, s);
    }
  }
}
