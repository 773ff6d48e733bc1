/** The pool cannot run for ever and cannot get stuck. */
module PoolTermination {
  import opened Common
  import opened TaskQueue
  import opened WorkerPool
  import opened PoolInvariant

  // ----- A weight that falls at every step of every schedule -----

  function Left(total: nat, done: nat): nat { if done < total then total - done else 0 }

  /** What is still ahead of the main thread: k workers and, in the loop, the unstarted tasks. */
  function MainWeight(c: Config, m: MainThread, k: nat, started: nat): nat {
    var tasks := 15 * Left(|c.outcomes|, started);
    match m
    case Spawning(i) => 34 * k + 15 * |c.outcomes| + 9 + 4 * Left(k, i)
    case Bootstrapping(i) => 33 * k + 15 * |c.outcomes| + 8 + Left(k, i)
    case Scheduling => 33 * k + tasks + 7
    case SignallingTask(_) => 33 * k + tasks + 11
    case Awaiting => 33 * k + tasks + 6
    case Interrupting(i) => 32 * k + 5 + Left(k, i)
    case Waking(i) => 17 * k + 4 + 15 * Left(k, i)
    case SignallingWake(i) => 17 * k + 8 + 15 * Left(k, i + 1)
    case JoiningInterrupted(i) => 16 * k + 3 + Left(k, i)
    case Stopping(i) => k + 2 + 15 * Left(k, i)
    case SignallingStop(i) => k + 6 + 15 * Left(k, i + 1)
    case Joining(i) => 1 + Left(k, i)
    case _ => 0
  }

  function PlaceWeight(p: Place): nat {
    match p
    case Unborn => 0
    case Booting => 3
    case Receiving => 1
    case Running(_) => 4
    case Responding(_) => 3
    case Spinning => 1
    case Stopped => 0
  }

  function WorkerWeight(wk: Worker): nat {
    PlaceWeight(wk.place) + Weight(wk.queue) + 3 * (|InHand(wk.queue)| + |wk.queue.deque|)
  }

  function WorkerWeights(ws: seq<Worker>): seq<nat> { seq(|ws|, i requires 0 <= i < |ws| => WorkerWeight(ws[i])) }

  function Measure(c: Config, s: Pool): nat {
    MainWeight(c, s.main, |s.workers|, s.started) + Sum(WorkerWeights(s.workers)) + 2 * |s.response|
  }

  lemma WeightsUpdate(ws: seq<Worker>, w: nat, wk: Worker)
    requires w < |ws|
    ensures Sum(WorkerWeights(ws[w := wk])) == Sum(WorkerWeights(ws)) - WorkerWeight(ws[w]) + WorkerWeight(wk)
  {
    assert WorkerWeights(ws[w := wk]) == WorkerWeights(ws)[w := WorkerWeight(wk)];
    SumUpdate(WorkerWeights(ws), w, WorkerWeight(wk));
  }

  lemma PutWeight(s: Pool, w: nat, m: Message)
    requires w < |s.workers|
    ensures Sum(WorkerWeights(PutTo(s, w, m).workers)) == Sum(WorkerWeights(s.workers)) + 10
    ensures Sum(WorkerWeights(SignalTo(s, w).workers)) <= Sum(WorkerWeights(s.workers)) + 3
  {
    var wk := s.workers[w];
    WeightsUpdate(s.workers, w, wk.(queue := Append(wk.queue, m)));
    WeightsUpdate(s.workers, w, wk.(queue := Signal(wk.queue)));
  }

  lemma ReadDescends(wk: Worker)
    requires InsideGet(wk.queue) && !Blocked(wk.queue) && Wakeable(wk.queue, true)
    ensures WorkerWeight(wk.(queue := ReadStep(wk.queue))) < WorkerWeight(wk)
  {
    ReadStepDescends(wk.queue);
    var q, r := wk.queue, ReadStep(wk.queue);
    ReadStepKeeps(q, true);
    assert |InHand(r) + r.deque| == |InHand(q) + q.deque|;
  }

  lemma PlaceDescends(c: Config, s: Pool, w: nat)
    requires w < |s.workers| && WorkerStep(c, s, w).Some?
    requires s.workers[w].place.Receiving? <==> !s.workers[w].queue.reader.Outside?
    requires s.workers[w].place.Receiving? ==> s.workers[w].queue.reader.Returning?
    ensures WorkerWeight(WorkerStep(c, s, w).value.workers[w]) + 2 * |WorkerStep(c, s, w).value.response|
         < WorkerWeight(s.workers[w]) + 2 * |s.response|
  {
  }

  lemma WorkerDescends(c: Config, s: Pool, w: nat)
    requires w < |s.workers| && WorkerStep(c, s, w).Some? && Wakeable(s.workers[w].queue, true)
    requires s.workers[w].place.Receiving? <==> !s.workers[w].queue.reader.Outside?
    ensures Measure(c, WorkerStep(c, s, w).value) < Measure(c, s)
  {
    var t := WorkerStep(c, s, w).value;
    WeightsUpdate(s.workers, w, t.workers[w]);
    if s.workers[w].place.Receiving? && InsideGet(s.workers[w].queue) {
      ReadDescends(s.workers[w]);
    } else {
      PlaceDescends(c, s, w);
    }
  }

  lemma ConstructDescends(c: Config, s: Pool)
    requires BootPhase(s.main) && Construct(s).Some?
    ensures Measure(c, Construct(s).value) < Measure(c, s)
  {
    if s.main.Spawning? && s.main.next < |s.workers| {
      WeightsUpdate(s.workers, s.main.next, s.workers[s.main.next].(place := Booting));
    }
  }

  lemma ScheduleDescends(c: Config, s: Pool)
    requires s.main.Scheduling?
    ensures Measure(c, Schedule(c, s)) < Measure(c, s)
  {
    var t := Schedule(c, s);
    if t.main.SignallingTask? {
      PutWeight(s, t.main.worker, Execute(|s.records|));
      assert t.workers == PutTo(s, t.main.worker, Execute(|s.records|)).workers;
    }
  }

  lemma LoopDescends(c: Config, s: Pool)
    requires LoopPhase(s.main) && MainStep(c, s).Some? && (s.main.SignallingTask? ==> s.main.worker < |s.workers|)
    ensures Measure(c, MainStep(c, s).value) < Measure(c, s)
  {
    if s.main.SignallingTask? {
      PutWeight(s, s.main.worker, StopProcessing);
    } else if s.main.Scheduling? {
      ScheduleDescends(c, s);
    }
  }

  lemma QueueWeightsFall(c: Config, k: nat, i: nat, started: nat)
    ensures i < k ==> MainWeight(c, SignallingWake(i), k, started) + 10 < MainWeight(c, Waking(i), k, started)
    ensures i < k ==> MainWeight(c, Waking(i + 1), k, started) + 3 < MainWeight(c, SignallingWake(i), k, started)
    ensures i < k ==> MainWeight(c, SignallingStop(i), k, started) + 10 < MainWeight(c, Stopping(i), k, started)
    ensures i < k ==> MainWeight(c, Stopping(i + 1), k, started) + 3 < MainWeight(c, SignallingStop(i), k, started)
    ensures MainWeight(c, JoiningInterrupted(0), k, started) < MainWeight(c, Waking(k), k, started)
    ensures MainWeight(c, Joining(0), k, started) < MainWeight(c, Stopping(k), k, started)
  {
  }

  lemma MarkDescends(c: Config, s: Pool)
    requires s.main.Interrupting? && s.main.next < |s.workers|
    ensures Measure(c, HandleInterrupt(s).value) < Measure(c, s)
  {
    WeightsUpdate(s.workers, s.main.next, s.workers[s.main.next].(interruptPending := true));
  }

  lemma InterruptDescends(c: Config, s: Pool)
    requires InterruptPhase(s.main) && HandleInterrupt(s).Some?
    ensures Measure(c, HandleInterrupt(s).value) < Measure(c, s)
  {
    var i := s.main.next;
    if s.main.Interrupting? {
      if i < |s.workers| {
        MarkDescends(c, s);
      }
    } else if !s.main.JoiningInterrupted? {
      QueueWeightsFall(c, |s.workers|, i, s.started);
      if i < |s.workers| {
        PutWeight(s, i, WaitForKeyboardInterrupt);
      }
    }
  }

  lemma ExitDescends(c: Config, s: Pool)
    requires (s.main.Stopping? || s.main.SignallingStop? || s.main.Joining?) && Exit(c, s).Some?
    ensures Measure(c, Exit(c, s).value) < Measure(c, s)
  {
    if !s.main.Joining? {
      QueueWeightsFall(c, |s.workers|, s.main.next, s.started);
      if s.main.next < |s.workers| {
        PutWeight(s, s.main.next, StopProcessing);
      }
    }
  }

  lemma DeliverDescends(c: Config, s: Pool, w: nat)
    requires Next(c, s, Deliver(w)).Some? && Wakeable(s.workers[w].queue, true)
    requires s.workers[w].place.Receiving? <==> !s.workers[w].queue.reader.Outside?
    ensures Measure(c, Next(c, s, Deliver(w)).value) < Measure(c, s)
  {
    WeightsUpdate(s.workers, w, LeaveGet(s.workers[w], Stopped));
  }

  lemma StepDescends(c: Config, s: Pool, a: Action)
    requires Invariant(c, s) && Next(c, s, a).Some?
    ensures Measure(c, Next(c, s, a).value) < Measure(c, s)
  {
    match a {
      case Main =>
        if BootPhase(s.main) { ConstructDescends(c, s); }
        else if LoopPhase(s.main) { LoopDescends(c, s); }
        else if InterruptPhase(s.main) { InterruptDescends(c, s); }
        else { ExitDescends(c, s); }
      case Work(w) => assert WorkerOk(s.workers[w], Expected(s, w), SignalOwed(s.main, w)); WorkerDescends(c, s, w);
      case Deliver(w) => assert WorkerOk(s.workers[w], Expected(s, w), SignalOwed(s.main, w)); DeliverDescends(c, s, w);
      case CtrlC =>
    }
  }

  /** No schedule runs for longer than the weight of the state it starts in. */
  lemma {:induction false} RunsEnd(c: Config, s: Pool, actions: seq<Action>)
    requires Invariant(c, s) && Run(c, s, actions).Some?
    ensures |actions| + Measure(c, Run(c, s, actions).value) <= Measure(c, s)
    decreases |actions|
  {
    if actions != [] {
      StepKeeps(c, s, actions[0]);
      StepDescends(c, s, actions[0]);
      RunsEnd(c, Next(c, s, actions[0]).value, actions[1..]);
    }
  }

  // ----- Some thread can always move -----

  /** A step of the pool's own threads, as opposed to a Ctrl-C from outside. */
  predicate CanMove(c: Config, s: Pool, a: Action) { a != CtrlC && Next(c, s, a).Some? }

  /** A worker that owes its current task, or has been told to stop, can move or can be interrupted. */
  lemma BusyWorkerMoves(c: Config, s: Pool, w: nat)
    requires Invariant(c, s) && !BootPhase(s.main) && w < |s.workers| && !s.workers[w].place.Stopped?
    requires Expected(s, w) != [] && !SignalOwed(s.main, w)
    ensures CanMove(c, s, Work(w)) || CanMove(c, s, Deliver(w))
  {
    var wk := s.workers[w];
    assert WorkerOk(wk, Expected(s, w), SignalOwed(s.main, w)) && JobOk(c, s.jobs[w], wk.place, s.ran);
    if wk.place.Running? || wk.place.Responding? {
      HandIsJob(s, w, SignalOwed(s.main, w));
    } else if wk.place.Spinning? {
      assert Expected(s, w)[0] == WaitForKeyboardInterrupt;
      assert s.interrupted && wk.interruptPending;
    }
  }

  /** Someone owes a task while the scheduler waits for a response. */
  lemma AwaitingMoves(c: Config, s: Pool) returns (a: Action)
    requires Invariant(c, s) && s.main.Awaiting? && WorkerCount(c) > 0 && NoneExits(c)
    ensures CanMove(c, s, a)
  {
    if s.response != [] {
      a := Main;
    } else {
      Pigeonhole(s.available, |s.jobs|);
      var w: nat :| w < |s.jobs| && w !in s.available;
      assert JobOk(c, s.jobs[w], s.workers[w].place, s.ran);
      assert s.jobs[w].Assigned?;
      assert !Died(c, s, w) && !s.workers[w].place.Stopped?;
      BusyWorkerMoves(c, s, w);
      a := if CanMove(c, s, Work(w)) then Work(w) else Deliver(w);
    }
  }

  /** Every worker that has not been heard from yet is still to put its id in the response queue. */
  lemma BootstrapMoves(c: Config, s: Pool) returns (a: Action)
    requires Invariant(c, s) && s.main.Bootstrapping?
    ensures CanMove(c, s, a)
  {
    if s.response != [] || s.main.received >= |s.workers| {
      a := Main;
    } else {
      assert s.uninitialized != {};
      var w :| w in s.uninitialized;
      a := Work(w);
    }
  }

  lemma JoiningMoves(c: Config, s: Pool) returns (a: Action)
    requires Invariant(c, s) && (s.main.JoiningInterrupted? || s.main.Joining?)
    ensures CanMove(c, s, a)
  {
    var w := s.main.next;
    if w >= |s.workers| || s.workers[w].place.Stopped? {
      a := Main;
    } else {
      BusyWorkerMoves(c, s, w);
      a := if CanMove(c, s, Work(w)) then Work(w) else Deliver(w);
    }
  }

  /** The scheduler hears from every task it starts, if there is anything to do: there is a worker, and
      no target takes its worker down. */
  predicate Responsive(c: Config) { c.outcomes == [] || (c.limit >= 1 && NoneExits(c)) }

  /** Until the run ends some thread of the pool can take a step, as long as the scheduler is not
      waiting for a response that cannot come; and after a Ctrl-C it never is. */
  lemma SomeoneMoves(c: Config, s: Pool) returns (a: Action)
    requires Invariant(c, s) && !Ended(s) && (Responsive(c) || s.interrupted || !s.main.Awaiting?)
    ensures CanMove(c, s, a)
  {
    match s.main {
      case Bootstrapping(_) => a := BootstrapMoves(c, s);
      case Awaiting => a := AwaitingMoves(c, s);
      case JoiningInterrupted(_) => a := JoiningMoves(c, s);
      case Joining(_) => a := JoiningMoves(c, s);
      case _ => a := Main;
    }
  }
}
