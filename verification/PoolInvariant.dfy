/** What every step of the pool keeps. */
module PoolInvariant {
  import opened Common
  import opened TaskQueue
  import opened WorkerPool

  predicate BootPhase(m: MainThread) { m.Spawning? || m.Bootstrapping? }
  predicate LoopPhase(m: MainThread) { m.Scheduling? || m.SignallingTask? || m.Awaiting? }
  predicate InterruptPhase(m: MainThread) {
    m.Interrupting? || m.Waking? || m.SignallingWake? || m.JoiningInterrupted?
  }

  /** The control messages the main thread has put in queue w so far. */
  function Control(m: MainThread, interrupted: bool, w: nat): seq<Message> {
    var before := if interrupted then [WaitForKeyboardInterrupt] else [];
    match m
    case Waking(i) => if w < i then before else []
    case SignallingWake(i) => if w <= i then before else []
    case JoiningInterrupted(_) => before
    case Stopping(i) => before + if w < i then [StopProcessing] else []
    case SignallingStop(i) => before + if w <= i then [StopProcessing] else []
    case Joining(_) => before + [StopProcessing]
    case Returned(_) => before + [StopProcessing]
    case RaisedErrors => before + [StopProcessing]
    case Reraised => before + [StopProcessing]
    case _ => []
  }

  /** The main thread will still release the lock of queue w: it has appended and not released, or it
      is on its way to wake every worker, which also makes up for a Put that the interrupt cut short. */
  predicate SignalOwed(m: MainThread, w: nat) {
    m == SignallingTask(w) || m == SignallingStop(w) || m.Interrupting?
    || ((m.Waking? || m.SignallingWake?) && m.next <= w)
  }

  /** The messages worker w has still to deal with, in order. */
  function Expected(s: Pool, w: nat): seq<Message>
    requires w < |s.jobs|
  {
    (if s.jobs[w].Assigned? then [Execute(s.jobs[w].task)] else []) + Control(s.main, s.interrupted, w)
  }

  /** The message a worker has taken and is dealing with. */
  function Hand(wk: Worker): seq<Message> {
    match wk.place
    case Receiving => InHand(wk.queue)
    case Running(t) => [Execute(t)]
    case Responding(t) => [Execute(t)]
    case Spinning => [WaitForKeyboardInterrupt]
    case _ => []
  }

  ghost predicate WorkerOk(wk: Worker, expected: seq<Message>, signalOwed: bool) {
    && (wk.place.Receiving? <==> !wk.queue.reader.Outside?)
    && (!wk.place.Stopped? ==> Wakeable(wk.queue, signalOwed) && Hand(wk) + wk.queue.deque == expected)
  }

  ghost predicate WorkersOk(c: Config, s: Pool) {
    && |s.workers| == |s.jobs| == WorkerCount(c)
    && forall w :: 0 <= w < |s.workers| ==> WorkerOk(s.workers[w], Expected(s, w), SignalOwed(s.main, w))
  }

  /** Every worker id is on the free stack exactly once, or owes a task. */
  ghost predicate IdsOk(jobs: seq<Job>, available: seq<nat>, active: int) {
    && Distinct(available)
    && (forall w :: w in available ==> w < |jobs| && jobs[w].Free?)
    && (forall w: nat :: w < |jobs| && jobs[w].Free? ==> w in available)
    && |available| + active == |jobs|
  }

  /** A started task is owed by one worker or has been returned, never both and never twice. */
  ghost predicate TasksOk(jobs: seq<Job>, returned: seq<nat>, started: nat, active: int) {
    && 0 <= active && Distinct(returned) && |returned| + active == started
    && (forall t :: t in returned ==> t < started)
    && (forall w :: 0 <= w < |jobs| && !jobs[w].Free? ==> jobs[w].task < started && jobs[w].task !in returned)
    && (forall v, w :: 0 <= v < w < |jobs| && !jobs[v].Free? && !jobs[w].Free? ==> jobs[v].task != jobs[w].task)
  }

  function ErrorsOf(c: Config, tasks: seq<nat>): seq<ErrorString> {
    if tasks == [] then [] else
      var t := tasks[|tasks| - 1];
      ErrorsOf(c, tasks[..|tasks| - 1])
        + if t < |c.outcomes| && c.outcomes[t].Raised? then [ErrorString(t, c.outcomes[t].trace)] else []
  }

  /** A task runs at most once, and its record is what its target does. */
  ghost predicate RecordsOk(c: Config, records: seq<Option<Outcome>>, started: nat, ran: seq<nat>, returned: seq<nat>,
                            errors: seq<ErrorString>) {
    && Distinct(ran) && |records| == started <= |c.outcomes|
    && (forall t :: t in ran ==> t < started)
    && (forall t: nat :: t < started ==> records[t] == if t in ran then Some(c.outcomes[t]) else None)
    && (forall t :: t in returned ==> t in ran && !Exits(c, t))
    && errors == ErrorsOf(c, returned)
  }

  /** A worker has run its task exactly when it is answering or has answered; a task that ends its
      thread is never answered. */
  ghost predicate JobOk(c: Config, job: Job, place: Place, ran: seq<nat>) {
    match job
    case Free => true
    case Answered(t) => t in ran && !Exits(c, t)
    case Assigned(t) => place.Stopped? || ((t in ran <==> place.Responding?) && (place.Responding? ==> !Exits(c, t)))
  }

  ghost predicate JobsOk(c: Config, jobs: seq<Job>, workers: seq<Worker>, ran: seq<nat>) {
    |jobs| == |workers| && forall w :: 0 <= w < |jobs| ==> JobOk(c, jobs[w], workers[w].place, ran)
  }

  /** The pairs in the response queue are exactly the answers the main thread has not yet taken. */
  ghost predicate ResponsesOk(response: seq<Response>, jobs: seq<Job>) {
    && Distinct(response)
    && (forall r :: r in response && r.Finished? ==> r.worker < |jobs| && jobs[r.worker] == Answered(r.task))
    && (forall w: nat :: w < |jobs| && jobs[w].Answered? ==> Finished(w, jobs[w].task) in response)
  }

  /** Bare ids are in the response queue only during construction, each at most once. */
  ghost predicate BootOk(c: Config, s: Pool) {
    && (BootPhase(s.main) ==>
          && s.started == 0 && s.active == 0 && !s.interrupted
          && (forall w :: 0 <= w < |s.jobs| ==> s.jobs[w].Free?)
          && (forall w :: w in s.uninitialized ==> w < |s.workers|)
          && |s.uninitialized| + (if s.main.Bootstrapping? then s.main.received else 0) == WorkerCount(c)
          && (forall r :: r in s.response ==> r.Ready? && r.worker in s.uninitialized
                                              && r.worker < |s.workers| && s.workers[r.worker].place.Receiving?)
          && (forall w :: 0 <= w < |s.workers| ==>
                && (s.workers[w].place.Unborn? <==> s.main.Spawning? && s.main.next <= w)
                && (w !in s.uninitialized ==> s.workers[w].place.Receiving?)
                && (w in s.uninitialized && !s.workers[w].place.Unborn? && !s.workers[w].place.Booting? ==> Ready(w) in s.response)))
    && (!BootPhase(s.main) ==>
          && (forall r :: r in s.response ==> r.Finished?)
          && (forall w :: 0 <= w < |s.workers| ==> !s.workers[w].place.Unborn? && !s.workers[w].place.Booting?))
  }

  /** Where the main thread is, and what it has already seen or done there. */
  ghost predicate PhaseOk(c: Config, s: Pool) {
    && !s.main.Crashed?
    && (s.main.Awaiting? ==> s.active > 0 || (WorkerCount(c) == 0 && |c.outcomes| > 0))
    && (s.main.Awaiting? && s.started < |c.outcomes| ==> s.active >= MaxConcurrency(c))
    && (InterruptPhase(s.main) || s.main.Reraised? ==> s.interrupted)
    && (BootPhase(s.main) || LoopPhase(s.main) || s.main.Returned? || s.main.RaisedErrors? ==> !s.interrupted)
    && (!BootPhase(s.main) && !LoopPhase(s.main) && !s.interrupted ==> s.started == |c.outcomes| && s.active == 0)
    && (s.main.SignallingTask? || s.main.SignallingWake? || s.main.SignallingStop? ==> SignalTarget(s.main) < |s.workers|)
    && (s.main.JoiningInterrupted? || s.main.Joining? || s.main.Waking? || s.main.Stopping? ==> s.main.next <= |s.workers|)
    && (s.main.Returned? ==> s.errors == [] && s.main.results == Results(s.records))
    && (s.main.RaisedErrors? ==> s.errors != [])
  }

  function SignalTarget(m: MainThread): nat
    requires m.SignallingTask? || m.SignallingWake? || m.SignallingStop?
  {
    match m case SignallingTask(w) => w case SignallingWake(w) => w case SignallingStop(w) => w
  }

  /** The task that worker w owes has ended the worker's thread. */
  ghost predicate Died(c: Config, s: Pool, w: nat) {
    w < |s.jobs| && s.jobs[w].Assigned? && Exits(c, s.jobs[w].task) && s.jobs[w].task in s.ran
  }

  /** Which threads have stopped, and which have been told to. */
  ghost predicate StoppedOk(c: Config, s: Pool) {
    forall w :: 0 <= w < |s.workers| ==>
      && (s.workers[w].interruptPending ==> s.interrupted)
      && (s.workers[w].place.Stopped? ==>
            s.interrupted || StopProcessing in Control(s.main, s.interrupted, w) || Died(c, s, w))
      && (s.interrupted && (s.main.Interrupting? ==> w < s.main.next) ==> s.workers[w].interruptPending)
      && ((s.main.JoiningInterrupted? || s.main.Joining?) && w < s.main.next ==> s.workers[w].place.Stopped?)
      && (s.interrupted && !InterruptPhase(s.main) ==> s.workers[w].place.Stopped?)
      && (Ended(s) ==> s.workers[w].place.Stopped?)
  }

  ghost predicate Invariant(c: Config, s: Pool) {
    && WorkersOk(c, s) && IdsOk(s.jobs, s.available, s.active) && TasksOk(s.jobs, s.returned, s.started, s.active)
    && RecordsOk(c, s.records, s.started, s.ran, s.returned, s.errors) && JobsOk(c, s.jobs, s.workers, s.ran)
    && ResponsesOk(s.response, s.jobs) && BootOk(c, s) && PhaseOk(c, s) && StoppedOk(c, s)
  }

  lemma StartIds(c: Config)
    ensures IdsOk(Start(c).jobs, Start(c).available, Start(c).active)
  {
    var s := Start(c);
    forall w: nat | w < |s.jobs| ensures w in s.available {
      assert s.available[w] == w;
    }
  }

  lemma StartBooks(c: Config)
    ensures var s := Start(c);
            && TasksOk(s.jobs, s.returned, s.started, s.active) && ResponsesOk(s.response, s.jobs)
            && RecordsOk(c, s.records, s.started, s.ran, s.returned, s.errors)
  {
  }

  lemma StartWorkers(c: Config)
    ensures WorkersOk(c, Start(c)) && JobsOk(c, Start(c).jobs, Start(c).workers, [])
  {
  }

  lemma StartPhase(c: Config)
    ensures BootOk(c, Start(c)) && PhaseOk(c, Start(c)) && StoppedOk(c, Start(c))
  {
  }

  lemma StartOk(c: Config)
    ensures Invariant(c, Start(c))
  {
    StartIds(c);
    StartBooks(c);
    StartWorkers(c);
    StartPhase(c);
  }

  /** A step that changes worker w at most, and leaves the others the same work. */
  lemma WorkersFrame(c: Config, s: Pool, t: Pool, w: nat)
    requires WorkersOk(c, s) && |t.jobs| == |s.jobs| && |t.workers| == |s.workers|
    requires forall v :: 0 <= v < |s.workers| && v != w ==>
               t.workers[v] == s.workers[v] && Expected(t, v) == Expected(s, v) && (SignalOwed(s.main, v) ==> SignalOwed(t.main, v))
    requires w < |s.workers| ==> WorkerOk(t.workers[w], Expected(t, w), SignalOwed(t.main, w))
    ensures WorkersOk(c, t)
  {
  }

  /** Put, as far as its append. */
  lemma AppendKeeps(wk: Worker, m: Message, expected: seq<Message>, signalOwed: bool)
    requires WorkerOk(wk, expected, signalOwed)
    ensures WorkerOk(wk.(queue := Append(wk.queue, m)), expected + [m], true)
  {
    assert Hand(wk) + (wk.queue.deque + [m]) == (Hand(wk) + wk.queue.deque) + [m];
  }

  lemma ConstructKeepsWorkers(c: Config, s: Pool)
    requires WorkersOk(c, s) && BootPhase(s.main) && Construct(s).Some? && !Construct(s).value.main.Crashed?
    requires s.main.Spawning? && s.main.next < |s.workers| ==> s.workers[s.main.next].place.Unborn?
    ensures WorkersOk(c, Construct(s).value)
  {
    WorkersFrame(c, s, Construct(s).value, if s.main.Spawning? then s.main.next else |s.workers|);
  }

  lemma SpawnKeepsBoot(c: Config, s: Pool)
    requires BootOk(c, s) && PhaseOk(c, s) && |s.jobs| == |s.workers| == WorkerCount(c) && s.main.Spawning?
    ensures BootOk(c, Construct(s).value) && PhaseOk(c, Construct(s).value)
  {
  }

  /** While the workers start up, no job is assigned and no thread has stopped. */
  lemma ConstructKeepsJobs(c: Config, s: Pool)
    requires BootOk(c, s) && JobsOk(c, s.jobs, s.workers, s.ran) && StoppedOk(c, s) && BootPhase(s.main) && Construct(s).Some?
    requires !Construct(s).value.main.Crashed? && !s.interrupted
    ensures JobsOk(c, s.jobs, Construct(s).value.workers, s.ran) && StoppedOk(c, Construct(s).value)
  {
  }

  lemma SpawnKeeps(c: Config, s: Pool)
    requires Invariant(c, s) && s.main.Spawning?
    ensures Invariant(c, Construct(s).value)
  {
    SpawnKeepsBoot(c, s);
    ConstructKeepsWorkers(c, s);
    ConstructKeepsJobs(c, s);
  }

  lemma BootstrapKeepsBoot(c: Config, s: Pool)
    requires BootOk(c, s) && PhaseOk(c, s) && Distinct(s.response) && |s.jobs| == |s.workers| == WorkerCount(c)
    requires s.main.Bootstrapping? && Construct(s).Some?
    ensures BootOk(c, Construct(s).value) && PhaseOk(c, Construct(s).value)
  {
    if s.main.received < |s.workers| {
      assert s.response[0] in s.response;
    }
  }

  lemma BootstrapKeepsResponses(s: Pool)
    requires BootPhase(s.main) && ResponsesOk(s.response, s.jobs) && s.response != [] && s.response[0].Ready?
    ensures ResponsesOk(s.response[1..], s.jobs)
  {
    assert s.response == [s.response[0]] + s.response[1..];
  }

  lemma BootstrapKeeps(c: Config, s: Pool)
    requires Invariant(c, s) && s.main.Bootstrapping? && Construct(s).Some?
    ensures Invariant(c, Construct(s).value)
  {
    BootstrapKeepsBoot(c, s);
    ConstructKeepsWorkers(c, s);
    ConstructKeepsJobs(c, s);
    if s.main.received < |s.workers| {
      assert s.response[0] in s.response;
      BootstrapKeepsResponses(s);
    }
  }

  lemma SignalTaskKeepsWorkers(c: Config, s: Pool)
    requires WorkersOk(c, s) && s.main.SignallingTask? && s.main.worker < |s.workers|
    ensures WorkersOk(c, MainStep(c, s).value)
  {
    WorkersFrame(c, s, MainStep(c, s).value, s.main.worker);
  }

  lemma SignalTaskKeepsPhase(c: Config, s: Pool)
    requires PhaseOk(c, s) && StoppedOk(c, s) && s.main.SignallingTask? && s.main.worker < |s.workers|
    ensures PhaseOk(c, MainStep(c, s).value) && StoppedOk(c, MainStep(c, s).value)
  {
  }

  lemma SignalTaskKeeps(c: Config, s: Pool)
    requires Invariant(c, s) && s.main.SignallingTask?
    ensures MainStep(c, s).Some? && Invariant(c, MainStep(c, s).value)
  {
    SignalTaskKeepsWorkers(c, s);
    SignalTaskKeepsPhase(c, s);
    QuietFrame(c, s, MainStep(c, s).value);
  }

  /** After construction, a step of the main thread that only touches queues and interrupt flags. */
  lemma QuietFrame(c: Config, s: Pool, t: Pool)
    requires JobsOk(c, s.jobs, s.workers, s.ran) && BootOk(c, s) && !BootPhase(s.main) && !BootPhase(t.main)
    requires t.jobs == s.jobs && t.ran == s.ran && t.response == s.response && |t.workers| == |s.workers|
    requires forall w :: 0 <= w < |s.workers| ==> t.workers[w].place == s.workers[w].place
    ensures JobsOk(c, t.jobs, t.workers, t.ran) && BootOk(c, t)
  {
  }

  lemma HandleInterruptKeepsStopped(c: Config, s: Pool)
    requires StoppedOk(c, s) && PhaseOk(c, s) && InterruptPhase(s.main) && HandleInterrupt(s).Some?
    ensures StoppedOk(c, HandleInterrupt(s).value) && PhaseOk(c, HandleInterrupt(s).value)
  {
  }

  lemma HandleInterruptKeepsWorkers(c: Config, s: Pool)
    requires WorkersOk(c, s) && PhaseOk(c, s) && InterruptPhase(s.main) && HandleInterrupt(s).Some?
    ensures WorkersOk(c, HandleInterrupt(s).value)
  {
    var t, w := HandleInterrupt(s).value, s.main.next;
    if s.main.Waking? && w < |s.workers| {
      AppendKeeps(s.workers[w], WaitForKeyboardInterrupt, Expected(s, w), SignalOwed(s.main, w));
      assert Expected(t, w) == Expected(s, w) + [WaitForKeyboardInterrupt];
    }
    WorkersFrame(c, s, t, w);
  }

  lemma HandleInterruptKeeps(c: Config, s: Pool)
    requires Invariant(c, s) && InterruptPhase(s.main) && HandleInterrupt(s).Some?
    ensures Invariant(c, HandleInterrupt(s).value)
  {
    HandleInterruptKeepsWorkers(c, s);
    HandleInterruptKeepsStopped(c, s);
    QuietFrame(c, s, HandleInterrupt(s).value);
  }

  lemma StopWorkerKeepsWorkers(c: Config, s: Pool)
    requires WorkersOk(c, s) && s.main.Stopping? && s.main.next < |s.workers|
    ensures WorkersOk(c, Exit(c, s).value)
  {
    var t, w := Exit(c, s).value, s.main.next;
    AppendKeeps(s.workers[w], StopProcessing, Expected(s, w), SignalOwed(s.main, w));
    assert Expected(t, w) == Expected(s, w) + [StopProcessing];
    WorkersFrame(c, s, t, w);
  }

  lemma SignalStopKeepsWorkers(c: Config, s: Pool)
    requires WorkersOk(c, s) && s.main.SignallingStop? && s.main.next < |s.workers|
    ensures WorkersOk(c, Exit(c, s).value)
  {
    WorkersFrame(c, s, Exit(c, s).value, s.main.next);
  }

  /** Past the last worker, and while joining, only the main thread moves on. */
  lemma LeaveKeepsWorkers(c: Config, s: Pool)
    requires s.main.Joining? || (s.main.Stopping? && s.main.next >= |s.workers|)
    requires WorkersOk(c, s) && Exit(c, s).Some? && Exit(c, s).value.main != Crashed
    ensures WorkersOk(c, Exit(c, s).value)
  {
    WorkersFrame(c, s, Exit(c, s).value, |s.workers|);
  }

  lemma StopWorkerKeepsStopped(c: Config, s: Pool)
    requires StoppedOk(c, s) && PhaseOk(c, s) && (s.main.Stopping? || s.main.SignallingStop?) && Exit(c, s).Some?
    ensures StoppedOk(c, Exit(c, s).value) && PhaseOk(c, Exit(c, s).value)
  {
  }

  lemma JoinKeepsStopped(c: Config, s: Pool)
    requires StoppedOk(c, s) && PhaseOk(c, s) && |s.records| == s.started && s.main.Joining? && Exit(c, s).Some?
    ensures StoppedOk(c, Exit(c, s).value) && PhaseOk(c, Exit(c, s).value)
  {
  }

  lemma ExitKeeps(c: Config, s: Pool)
    requires Invariant(c, s) && (s.main.Stopping? || s.main.SignallingStop? || s.main.Joining?) && Exit(c, s).Some?
    ensures Invariant(c, Exit(c, s).value)
  {
    if s.main.Joining? {
      JoinKeepsStopped(c, s);
      LeaveKeepsWorkers(c, s);
    } else {
      StopWorkerKeepsStopped(c, s);
      if s.main.SignallingStop? {
        SignalStopKeepsWorkers(c, s);
      } else if s.main.next < |s.workers| {
        StopWorkerKeepsWorkers(c, s);
      } else {
        LeaveKeepsWorkers(c, s);
      }
    }
    QuietFrame(c, s, Exit(c, s).value);
  }

  lemma CtrlCKeeps(c: Config, s: Pool)
    requires Invariant(c, s) && Next(c, s, CtrlC).Some?
    ensures Invariant(c, Next(c, s, CtrlC).value)
  {
    WorkersFrame(c, s, Next(c, s, CtrlC).value, |s.workers|);
  }

  lemma TakeId(jobs: seq<Job>, available: seq<nat>, active: int, job: Job)
    requires IdsOk(jobs, available, active) && available != [] && !job.Free?
    ensures available[|available| - 1] < |jobs| && jobs[available[|available| - 1]].Free?
    ensures IdsOk(jobs[available[|available| - 1] := job], available[..|available| - 1], active + 1)
  {
    var w, rest := available[|available| - 1], available[..|available| - 1];
    assert w in available;
    var after := jobs[w := job];
    forall v | v in rest ensures v < |after| && after[v].Free? {
      var i :| 0 <= i < |rest| && rest[i] == v;
      assert available[i] == v && v in available && v != w;
    }
    forall v: nat | v < |after| && after[v].Free? ensures v in rest {
      assert v != w && jobs[v].Free?;
      var i :| 0 <= i < |available| && available[i] == v;
      assert rest[i] == v;
    }
  }

  lemma GiveId(jobs: seq<Job>, available: seq<nat>, active: int, w: nat)
    requires IdsOk(jobs, available, active) && w < |jobs| && !jobs[w].Free?
    ensures IdsOk(jobs[w := Free], available + [w], active - 1)
  {
  }

  lemma ScheduleKeepsWorkers(c: Config, s: Pool)
    requires WorkersOk(c, s) && IdsOk(s.jobs, s.available, s.active) && s.main.Scheduling? && !s.interrupted
    requires !Schedule(c, s).main.Crashed?
    ensures WorkersOk(c, Schedule(c, s))
    ensures var t := Schedule(c, s); t.main.SignallingTask? ==> !s.workers[t.main.worker].place.Responding?
  {
    var t := Schedule(c, s);
    if t.main.SignallingTask? {
      var w := t.main.worker;
      assert w in s.available;
      AppendKeeps(s.workers[w], Execute(|s.records|), Expected(s, w), false);
      assert Expected(s, w) == [];
      assert Hand(s.workers[w]) == [] || s.workers[w].place.Stopped?;
    }
    WorkersFrame(c, s, t, if t.main.SignallingTask? then t.main.worker else |s.workers|);
  }

  /** A task is handed to a free worker. */
  lemma AssignTask(jobs: seq<Job>, returned: seq<nat>, started: nat, active: int, w: nat)
    requires TasksOk(jobs, returned, started, active) && w < |jobs| && jobs[w].Free?
    ensures TasksOk(jobs[w := Assigned(started)], returned, started + 1, active + 1)
  {
  }

  lemma RecordStart(c: Config, records: seq<Option<Outcome>>, started: nat, ran: seq<nat>, returned: seq<nat>, errors: seq<ErrorString>)
    requires RecordsOk(c, records, started, ran, returned, errors) && started < |c.outcomes|
    ensures RecordsOk(c, records + [None], started + 1, ran, returned, errors) && started !in ran
  {
  }

  lemma JobStarts(c: Config, jobs: seq<Job>, workers: seq<Worker>, ran: seq<nat>, response: seq<Response>, w: nat, t: nat, wk: Worker)
    requires JobsOk(c, jobs, workers, ran) && ResponsesOk(response, jobs)
    requires w < |jobs| && jobs[w].Free? && t !in ran && !wk.place.Responding?
    ensures JobsOk(c, jobs[w := Assigned(t)], workers[w := wk], ran) && ResponsesOk(response, jobs[w := Assigned(t)])
  {
  }

  lemma StartTaskKeepsBooks(c: Config, s: Pool)
    requires |s.workers| == |s.jobs| && IdsOk(s.jobs, s.available, s.active) && TasksOk(s.jobs, s.returned, s.started, s.active)
    requires RecordsOk(c, s.records, s.started, s.ran, s.returned, s.errors) && JobsOk(c, s.jobs, s.workers, s.ran)
    requires ResponsesOk(s.response, s.jobs) && s.available != [] && s.started < |c.outcomes|
    requires s.available[|s.available| - 1] < |s.workers| && !s.workers[s.available[|s.available| - 1]].place.Responding?
    ensures var t := StartTask(s);
            && !t.main.Crashed? && IdsOk(t.jobs, t.available, t.active) && TasksOk(t.jobs, t.returned, t.started, t.active)
            && RecordsOk(c, t.records, t.started, t.ran, t.returned, t.errors) && JobsOk(c, t.jobs, t.workers, t.ran)
            && ResponsesOk(t.response, t.jobs)
  {
    var w := s.available[|s.available| - 1];
    TakeId(s.jobs, s.available, s.active, Assigned(s.started));
    AssignTask(s.jobs, s.returned, s.started, s.active, w);
    RecordStart(c, s.records, s.started, s.ran, s.returned, s.errors);
    JobStarts(c, s.jobs, s.workers, s.ran, s.response, w, s.started, StartTask(s).workers[w]);
  }

  /** StartTask changes the queue of one worker, and nothing about where the threads are. */
  lemma StartTaskKeepsPhase(c: Config, s: Pool)
    requires BootOk(c, s) && PhaseOk(c, s) && StoppedOk(c, s) && s.main.Scheduling? && |s.workers| == |s.jobs|
    requires s.started < |c.outcomes| && StartTask(s).main.SignallingTask? && s.active >= 0
    requires s.jobs[StartTask(s).main.worker].Free?
    ensures BootOk(c, StartTask(s)) && PhaseOk(c, StartTask(s)) && StoppedOk(c, StartTask(s))
  {
    var t := StartTask(s);
    forall w | 0 <= w < |s.workers|
      ensures t.workers[w].place == s.workers[w].place && t.workers[w].interruptPending == s.workers[w].interruptPending
    {
    }
  }

  lemma IdsLeft(jobs: seq<Job>, available: seq<nat>, active: int)
    requires IdsOk(jobs, available, active) && active < |jobs|
    ensures available != [] && available[|available| - 1] < |jobs| && available[|available| - 1] in available
    ensures jobs[available[|available| - 1]].Free?
  {
    assert |available| > 0;
    assert available[|available| - 1] in available;
  }

  lemma ScheduleKeepsPhase(c: Config, s: Pool)
    requires BootOk(c, s) && PhaseOk(c, s) && StoppedOk(c, s) && s.main.Scheduling? && s.started <= |c.outcomes|
    requires |s.workers| == |s.jobs| == WorkerCount(c) && 0 <= s.active <= WorkerCount(c) && !Schedule(c, s).main.SignallingTask?
    requires !Schedule(c, s).main.Crashed?
    ensures BootOk(c, Schedule(c, s)) && PhaseOk(c, Schedule(c, s)) && StoppedOk(c, Schedule(c, s))
  {
  }

  lemma StartTaskKeeps(c: Config, s: Pool)
    requires Invariant(c, s) && s.main.Scheduling? && s.started < |c.outcomes| && s.active < MaxConcurrency(c)
    ensures Invariant(c, StartTask(s))
  {
    IdsLeft(s.jobs, s.available, s.active);
    assert Schedule(c, s) == StartTask(s) && StartTask(s).main.SignallingTask?;
    ScheduleKeepsWorkers(c, s);
    StartTaskKeepsBooks(c, s);
    StartTaskKeepsPhase(c, s);
  }

  lemma ScheduleKeeps(c: Config, s: Pool)
    requires Invariant(c, s) && s.main.Scheduling?
    ensures Invariant(c, Schedule(c, s))
  {
    if s.started < |c.outcomes| && s.active < MaxConcurrency(c) {
      StartTaskKeeps(c, s);
    } else {
      ScheduleKeepsWorkers(c, s);
      ScheduleKeepsPhase(c, s);
    }
  }

  lemma ReturnTask(jobs: seq<Job>, returned: seq<nat>, started: nat, active: int, w: nat)
    requires TasksOk(jobs, returned, started, active) && active > 0 && w < |jobs| && jobs[w].Answered?
    ensures TasksOk(jobs[w := Free], returned + [jobs[w].task], started, active - 1)
  {
  }

  lemma TakeResponse(response: seq<Response>, jobs: seq<Job>)
    requires ResponsesOk(response, jobs) && response != [] && response[0].Finished?
    ensures response[0].worker < |jobs| && jobs[response[0].worker] == Answered(response[0].task)
    ensures ResponsesOk(response[1..], jobs[response[0].worker := Free])
  {
    assert response[0] in response && response == [response[0]] + response[1..];
  }

  lemma BusyMeansActive(jobs: seq<Job>, available: seq<nat>, active: int, w: nat)
    requires IdsOk(jobs, available, active) && w < |jobs| && !jobs[w].Free?
    ensures active > 0
  {
    Pigeonhole(available, |jobs|);
  }

  lemma ReturnRecord(c: Config, records: seq<Option<Outcome>>, started: nat, ran: seq<nat>, returned: seq<nat>,
                     errors: seq<ErrorString>, t: nat)
    requires RecordsOk(c, records, started, ran, returned, errors) && t in ran && !Exits(c, t)
    ensures t < |records|
    ensures RecordsOk(c, records, started, ran, returned + [t],
                      errors + match records[t] case Some(Raised(trace)) => [ErrorString(t, trace)] case _ => [])
  {
    assert (returned + [t])[..|returned|] == returned;
  }

  lemma FreeKeepsJobs(c: Config, jobs: seq<Job>, workers: seq<Worker>, ran: seq<nat>, w: nat)
    requires JobsOk(c, jobs, workers, ran) && w < |jobs|
    ensures JobsOk(c, jobs[w := Free], workers, ran)
  {
  }

  lemma AwaitKeepsPhase(c: Config, s: Pool)
    requires BootOk(c, s) && PhaseOk(c, s) && StoppedOk(c, s) && s.main.Awaiting? && Await(s).Some? && Await(s).value.main.Scheduling?
    requires s.jobs[s.response[0].worker].Answered?
    ensures BootOk(c, Await(s).value) && PhaseOk(c, Await(s).value) && StoppedOk(c, Await(s).value)
  {
    assert forall r :: r in s.response[1..] ==> r in s.response;
  }

  lemma AwaitKeepsWorkers(c: Config, s: Pool)
    requires WorkersOk(c, s) && s.main.Awaiting? && Await(s).Some? && Await(s).value.main.Scheduling?
    requires s.jobs[s.response[0].worker].Answered?
    ensures WorkersOk(c, Await(s).value)
  {
    WorkersFrame(c, s, Await(s).value, |s.workers|);
  }

  lemma AwaitKeeps(c: Config, s: Pool)
    requires Invariant(c, s) && s.main.Awaiting? && Await(s).Some?
    ensures Invariant(c, Await(s).value)
  {
    assert s.response[0] in s.response;
    var Finished(w, task) := s.response[0];
    TakeResponse(s.response, s.jobs);
    BusyMeansActive(s.jobs, s.available, s.active, w);
    GiveId(s.jobs, s.available, s.active, w);
    ReturnTask(s.jobs, s.returned, s.started, s.active, w);
    assert JobOk(c, s.jobs[w], s.workers[w].place, s.ran);
    ReturnRecord(c, s.records, s.started, s.ran, s.returned, s.errors, task);
    FreeKeepsJobs(c, s.jobs, s.workers, s.ran, w);
    AwaitKeepsPhase(c, s);
    AwaitKeepsWorkers(c, s);
  }

  // ----- Steps of a worker -----

  lemma HandIsJob(s: Pool, w: nat, signalOwed: bool)
    requires w < |s.workers| == |s.jobs| && WorkerOk(s.workers[w], Expected(s, w), signalOwed)
    requires s.workers[w].place.Running? || s.workers[w].place.Responding?
    ensures s.jobs[w] == Assigned(s.workers[w].place.task)
  {
    assert Expected(s, w)[0] == Execute(s.workers[w].place.task);
    assert Execute(s.workers[w].place.task) !in Control(s.main, s.interrupted, w);
  }

  lemma ReplaceWorkerPhase(c: Config, s: Pool, w: nat, wk: Worker)
    requires BootOk(c, s) && PhaseOk(c, s) && StoppedOk(c, s) && JobsOk(c, s.jobs, s.workers, s.ran) && w < |s.workers|
    requires !s.workers[w].place.Booting? && !s.workers[w].place.Unborn? && !s.workers[w].place.Stopped?
    requires !wk.place.Booting? && !wk.place.Unborn? && wk.interruptPending == s.workers[w].interruptPending
    requires BootPhase(s.main) ==> wk.place.Receiving? && s.workers[w].place.Receiving?
    requires JobOk(c, s.jobs[w], wk.place, s.ran)
    requires wk.place.Stopped? ==> s.interrupted || StopProcessing in Control(s.main, s.interrupted, w)
    ensures var t := SetWorker(s, w, wk); BootOk(c, t) && PhaseOk(c, t) && StoppedOk(c, t) && JobsOk(c, t.jobs, t.workers, t.ran)
  {
  }

  /** Worker w moves on by itself, once it is past its start-up. */
  lemma ReplaceWorker(c: Config, s: Pool, w: nat, wk: Worker)
    requires Invariant(c, s) && w < |s.workers| && WorkerOk(wk, Expected(s, w), SignalOwed(s.main, w))
    requires !s.workers[w].place.Booting? && !s.workers[w].place.Unborn? && !s.workers[w].place.Stopped?
    requires !wk.place.Booting? && !wk.place.Unborn? && wk.interruptPending == s.workers[w].interruptPending
    requires BootPhase(s.main) ==> wk.place.Receiving? && s.workers[w].place.Receiving?
    requires JobOk(c, s.jobs[w], wk.place, s.ran)
    requires wk.place.Stopped? ==> s.interrupted || StopProcessing in Control(s.main, s.interrupted, w)
    ensures Invariant(c, SetWorker(s, w, wk))
  {
    WorkersFrame(c, s, SetWorker(s, w, wk), w);
    ReplaceWorkerPhase(c, s, w, wk);
  }

  lemma WorkerReads(c: Config, s: Pool, w: nat)
    requires Invariant(c, s) && w < |s.workers| && s.workers[w].place.Receiving?
    requires InsideGet(s.workers[w].queue) && !Blocked(s.workers[w].queue)
    ensures Invariant(c, WorkerStep(c, s, w).value)
  {
    var wk := s.workers[w];
    ReadStepKeeps(wk.queue, SignalOwed(s.main, w));
    assert JobOk(c, s.jobs[w], wk.place, s.ran);
    ReplaceWorker(c, s, w, wk.(queue := ReadStep(wk.queue)));
  }

  /** The message that Get returns is the first that the worker has to deal with. */
  lemma Dispatched(wk: Worker, expected: seq<Message>, signalOwed: bool)
    requires WorkerOk(wk, expected, signalOwed) && wk.place.Receiving? && wk.queue.reader.Returning?
    ensures expected != [] && expected[0] == wk.queue.reader.item
    ensures WorkerOk(Dispatch(wk, wk.queue.reader.item), expected, signalOwed)
  {
    assert (Hand(wk) + wk.queue.deque)[0] == wk.queue.reader.item;
  }

  lemma DispatchedJob(c: Config, s: Pool, w: nat, m: Message)
    requires w < |s.jobs| == |s.workers| && JobsOk(c, s.jobs, s.workers, s.ran) && s.workers[w].place.Receiving?
    requires Expected(s, w) != [] && Expected(s, w)[0] == m
    ensures JobOk(c, s.jobs[w], Dispatch(s.workers[w], m).place, s.ran)
    ensures m.StopProcessing? ==> m in Control(s.main, s.interrupted, w)
    ensures BootPhase(s.main) ==> s.jobs[w].Assigned?
  {
    assert JobOk(c, s.jobs[w], s.workers[w].place, s.ran);
  }

  lemma WorkerDispatches(c: Config, s: Pool, w: nat)
    requires Invariant(c, s) && w < |s.workers| && s.workers[w].place.Receiving? && s.workers[w].queue.reader.Returning?
    ensures Invariant(c, WorkerStep(c, s, w).value)
  {
    var wk, m := s.workers[w], s.workers[w].queue.reader.item;
    Dispatched(wk, Expected(s, w), SignalOwed(s.main, w));
    DispatchedJob(c, s, w, m);
    ReplaceWorker(c, s, w, Dispatch(wk, m));
  }

  lemma DeliverKeeps(c: Config, s: Pool, w: nat)
    requires Invariant(c, s) && Next(c, s, Deliver(w)).Some?
    ensures Invariant(c, Next(c, s, Deliver(w)).value)
  {
    assert JobOk(c, s.jobs[w], s.workers[w].place, s.ran);
    ReplaceWorker(c, s, w, LeaveGet(s.workers[w], Stopped));
  }

  lemma WorkerBootsBoot(c: Config, s: Pool, w: nat)
    requires BootOk(c, s) && Distinct(s.response) && w < |s.workers| == |s.jobs| && s.workers[w].place.Booting?
    ensures BootOk(c, WorkerStep(c, s, w).value) && Distinct(WorkerStep(c, s, w).value.response) && BootPhase(s.main)
    ensures Ready(w) !in s.response
  {
    assert Ready(w) !in s.response;
  }

  lemma WorkerBootsJobs(c: Config, s: Pool, w: nat)
    requires BootOk(c, s) && JobsOk(c, s.jobs, s.workers, s.ran) && StoppedOk(c, s) && PhaseOk(c, s) && ResponsesOk(s.response, s.jobs)
    requires w < |s.workers| && s.workers[w].place.Booting? && Ready(w) !in s.response
    ensures var t := WorkerStep(c, s, w).value;
            JobsOk(c, t.jobs, t.workers, t.ran) && StoppedOk(c, t) && PhaseOk(c, t) && ResponsesOk(t.response, t.jobs)
  {
  }

  lemma WorkerBootsWorkers(c: Config, s: Pool, w: nat)
    requires WorkersOk(c, s) && w < |s.workers| && s.workers[w].place.Booting?
    ensures WorkersOk(c, WorkerStep(c, s, w).value)
  {
    WorkersFrame(c, s, WorkerStep(c, s, w).value, w);
  }

  lemma WorkerBoots(c: Config, s: Pool, w: nat)
    requires Invariant(c, s) && w < |s.workers| && s.workers[w].place.Booting?
    ensures Invariant(c, WorkerStep(c, s, w).value)
  {
    WorkerBootsBoot(c, s, w);
    WorkerBootsJobs(c, s, w);
    WorkerBootsWorkers(c, s, w);
  }

  lemma RecordRun(c: Config, s: Pool, t: nat)
    requires RecordsOk(c, s.records, s.started, s.ran, s.returned, s.errors) && t < s.started && t !in s.ran
    ensures RecordsOk(c, s.records[t := Some(c.outcomes[t])], s.started, s.ran + [t], s.returned, s.errors)
  {
  }

  lemma JobRuns(c: Config, s: Pool, w: nat, t: nat)
    requires JobsOk(c, s.jobs, s.workers, s.ran) && TasksOk(s.jobs, s.returned, s.started, s.active)
    requires w < |s.jobs| && s.jobs[w] == Assigned(t)
    ensures JobsOk(c, s.jobs, s.workers[w := s.workers[w].(place := if Exits(c, t) then Stopped else Responding(t))], s.ran + [t])
  {
  }

  lemma WorkerRuns(c: Config, s: Pool, w: nat)
    requires Invariant(c, s) && w < |s.workers| && s.workers[w].place.Running?
    ensures WorkerStep(c, s, w).Some? && Invariant(c, WorkerStep(c, s, w).value)
  {
    HandIsJob(s, w, SignalOwed(s.main, w));
    var t := s.workers[w].place.task;
    assert JobOk(c, s.jobs[w], s.workers[w].place, s.ran);
    RecordRun(c, s, t);
    JobRuns(c, s, w, t);
    WorkersFrame(c, s, WorkerStep(c, s, w).value, w);
  }

  lemma Answer(s: Pool, w: nat, t: nat)
    requires w < |s.jobs| && s.jobs[w] == Assigned(t)
    requires IdsOk(s.jobs, s.available, s.active) && TasksOk(s.jobs, s.returned, s.started, s.active) && ResponsesOk(s.response, s.jobs)
    ensures IdsOk(s.jobs[w := Answered(t)], s.available, s.active)
    ensures TasksOk(s.jobs[w := Answered(t)], s.returned, s.started, s.active)
    ensures ResponsesOk(s.response + [Finished(w, t)], s.jobs[w := Answered(t)])
  {
    assert Finished(w, t) !in s.response;
  }

  lemma WorkerRespondsWorkers(c: Config, s: Pool, w: nat)
    requires WorkersOk(c, s) && w < |s.workers| && s.workers[w].place.Responding?
    ensures WorkersOk(c, WorkerStep(c, s, w).value)
  {
    HandIsJob(s, w, SignalOwed(s.main, w));
    var t := WorkerStep(c, s, w).value;
    assert Expected(s, w)[1..] == Expected(t, w);
    assert (Hand(s.workers[w]) + s.workers[w].queue.deque)[1..] == s.workers[w].queue.deque;
    WorkersFrame(c, s, t, w);
  }

  lemma WorkerRespondsPhase(c: Config, s: Pool, w: nat)
    requires BootOk(c, s) && PhaseOk(c, s) && StoppedOk(c, s) && JobsOk(c, s.jobs, s.workers, s.ran)
    requires w < |s.workers| && s.jobs[w].Assigned? && s.workers[w].place == Responding(s.jobs[w].task)
    ensures var t := WorkerStep(c, s, w).value;
            BootOk(c, t) && PhaseOk(c, t) && StoppedOk(c, t) && JobsOk(c, t.jobs, t.workers, t.ran)
  {
    assert JobOk(c, s.jobs[w], s.workers[w].place, s.ran);
  }

  lemma WorkerResponds(c: Config, s: Pool, w: nat)
    requires Invariant(c, s) && w < |s.workers| && s.workers[w].place.Responding?
    ensures WorkerStep(c, s, w).Some? && Invariant(c, WorkerStep(c, s, w).value)
  {
    HandIsJob(s, w, SignalOwed(s.main, w));
    Answer(s, w, s.workers[w].place.task);
    WorkerRespondsWorkers(c, s, w);
    WorkerRespondsPhase(c, s, w);
  }

  lemma WorkerKeeps(c: Config, s: Pool, w: nat)
    requires Invariant(c, s) && w < |s.workers| && WorkerStep(c, s, w).Some?
    ensures Invariant(c, WorkerStep(c, s, w).value)
  {
    match s.workers[w].place {
      case Booting => WorkerBoots(c, s, w);
      case Receiving => if s.workers[w].queue.reader.Returning? { WorkerDispatches(c, s, w); } else { WorkerReads(c, s, w); }
      case Running(_) => WorkerRuns(c, s, w);
      case Responding(_) => WorkerResponds(c, s, w);
      case _ =>
    }
  }

  lemma MainKeeps(c: Config, s: Pool)
    requires Invariant(c, s) && MainStep(c, s).Some?
    ensures Invariant(c, MainStep(c, s).value)
  {
    match s.main {
      case Spawning(_) => SpawnKeeps(c, s);
      case Bootstrapping(_) => BootstrapKeeps(c, s);
      case Scheduling => ScheduleKeeps(c, s);
      case SignallingTask(_) => SignalTaskKeeps(c, s);
      case Awaiting => AwaitKeeps(c, s);
      case Stopping(_) => ExitKeeps(c, s);
      case SignallingStop(_) => ExitKeeps(c, s);
      case Joining(_) => ExitKeeps(c, s);
      case _ => HandleInterruptKeeps(c, s);
    }
  }

  /** Every step of every thread, and every interrupt, keeps the invariant. */
  lemma StepKeeps(c: Config, s: Pool, a: Action)
    requires Invariant(c, s) && Next(c, s, a).Some?
    ensures Invariant(c, Next(c, s, a).value)
  {
    match a {
      case Main => MainKeeps(c, s);
      case Work(w) => WorkerKeeps(c, s, w);
      case Deliver(w) => DeliverKeeps(c, s, w);
      case CtrlC => CtrlCKeeps(c, s);
    }
  }

  lemma {:induction false} RunKeeps(c: Config, s: Pool, actions: seq<Action>)
    requires Invariant(c, s) && Run(c, s, actions).Some?
    ensures Invariant(c, Run(c, s, actions).value)
    decreases |actions|
  {
    if actions != [] {
      StepKeeps(c, s, actions[0]);
      RunKeeps(c, Next(c, s, actions[0]).value, actions[1..]);
    }
  }
}
