/** The background-task pool as a transition system: the main thread running the scheduler loop,
    one thread per worker, one task queue per worker and the shared response queue. Each action is
    one stretch of a thread that no other thread can observe half done. */
module WorkerPool {
  import opened Common
  import opened TaskQueue

  /** format_exc never returns an empty string. */
  type Trace = s: string | s != "" witness "Traceback"

  /** What a target does when it is called. The integer stands for an arbitrary return value. Exited is
      an exception that is not an Exception, such as SystemExit: Run does not catch it, so nothing is
      recorded and the thread ends. */
  datatype Outcome = Value(value: int) | Raised(trace: Trace) | Exited

  /** The targets, by what calling each one does, and the concurrency limit asked for. */
  datatype Config = Config(outcomes: seq<Outcome>, limit: int)

  /** max_concurrency = min(limit, number of targets), and how many workers range() gives for it. */
  function MaxConcurrency(c: Config): int { if c.limit < |c.outcomes| then c.limit else |c.outcomes| }
  function WorkerCount(c: Config): nat { if MaxConcurrency(c) < 0 then 0 else MaxConcurrency(c) }

  /** Calling target t ends the thread that calls it. */
  predicate Exits(c: Config, t: nat) { t < |c.outcomes| && c.outcomes[t].Exited? }

  predicate NoneExits(c: Config) { forall t :: 0 <= t < |c.outcomes| ==> !c.outcomes[t].Exited? }

  datatype Message = Execute(task: nat) | StopProcessing | WaitForKeyboardInterrupt

  datatype Place =
    | Unborn | Booting
    | Receiving             // in task_queue.Get; the queue says where
    | Running(task: nat) | Responding(task: nat)
    | Spinning              // sleeping until the KeyboardInterrupt arrives
    | Stopped

  datatype Worker = Worker(place: Place, queue: Queue<Message>, interruptPending: bool)

  /** The response queue is untagged: a bare worker id, or a (worker id, task id) pair. */
  datatype Response = Ready(worker: nat) | Finished(worker: nat, task: nat)

  /** History of a worker: what it owes. It never influences a step. */
  datatype Job = Free | Assigned(task: nat) | Answered(task: nat)

  datatype ErrorString = ErrorString(task: nat, trace: Trace)

  datatype MainThread =
    | Spawning(next: nat) | Bootstrapping(received: nat)
    | Scheduling | SignallingTask(worker: nat) | Awaiting
    | Interrupting(next: nat) | Waking(next: nat) | SignallingWake(next: nat) | JoiningInterrupted(next: nat)
    | Stopping(next: nat) | SignallingStop(next: nat) | Joining(next: nat)
    | Returned(results: seq<Option<int>>) | RaisedErrors | Reraised
    | Crashed               // an assertion, KeyError or TypeError in the main thread

  datatype Pool = Pool(
    main: MainThread,
    workers: seq<Worker>,
    response: seq<Response>,
    available: seq<nat>,              // stack of free worker ids
    uninitialized: set<nat>,
    records: seq<Option<Outcome>>,    // self.tasks: what each started task has recorded; Exited is nothing
    started: nat,
    active: int,
    errors: seq<ErrorString>,
    interrupted: bool,
    jobs: seq<Job>, ran: seq<nat>, returned: seq<nat>)   // histories

  datatype Action = Main | Work(worker: nat) | Deliver(worker: nat) | CtrlC

  function Start(c: Config): Pool {
    var k := WorkerCount(c);
    Pool(Spawning(0), seq(k, _ => Worker(Unborn, NewQueue(), false)), [], seq(k, i => i), Below(k),
         [], 0, 0, [], false, seq(k, _ => Free), [], [])
  }

  function SetWorker(s: Pool, w: nat, wk: Worker): Pool
    requires w < |s.workers|
  {
    s.(workers := s.workers[w := wk])
  }

  function PutTo(s: Pool, w: nat, m: Message): Pool
    requires w < |s.workers|
  {
    SetWorker(s, w, s.workers[w].(queue := Append(s.workers[w].queue, m)))
  }

  function SignalTo(s: Pool, w: nat): Pool
    requires w < |s.workers|
  {
    SetWorker(s, w, s.workers[w].(queue := Signal(s.workers[w].queue)))
  }

  // ----- The main thread -----

  /** __init__: create every worker, then take one response per worker. */
  function Construct(s: Pool): Option<Pool>
    requires s.main.Spawning? || s.main.Bootstrapping?
  {
    match s.main
    case Spawning(i) =>
      if i < |s.workers| then Some(SetWorker(s, i, s.workers[i].(place := Booting)).(main := Spawning(i + 1)))
      else Some(s.(main := Bootstrapping(0)))
    case Bootstrapping(i) =>
      if i >= |s.workers| then Some(s.(main := if s.uninitialized == {} then Scheduling else Crashed))
      else if s.response == [] then None
      else match s.response[0]
        case Ready(w) =>
          if w !in s.uninitialized then Some(s.(main := Crashed)) else
          Some(s.(main := Bootstrapping(i + 1), response := s.response[1..], uninitialized := s.uninitialized - {w}))
        case Finished(_, _) => Some(s.(main := Crashed))
  }

  /** StartTask up to the append of its Put. */
  function StartTask(s: Pool): Pool {
    if s.available == [] then s.(main := Crashed) else
    var w := s.available[|s.available| - 1];
    if w >= |s.workers| || w >= |s.jobs| then s.(main := Crashed) else
    PutTo(s, w, Execute(|s.records|)).(
      main := SignallingTask(w), records := s.records + [None], available := s.available[..|s.available| - 1],
      started := s.started + 1, active := s.active + 1, jobs := s.jobs[w := Assigned(|s.records|)])
  }

  /** The loop of _RunParallelTasks up to its next blocking call. */
  function Schedule(c: Config, s: Pool): Pool {
    if s.started < |c.outcomes| && s.active < MaxConcurrency(c) then StartTask(s)
    else if s.started < |c.outcomes| || s.active != 0 then s.(main := Awaiting)
    else s.(main := Stopping(0))
  }

  /** AwaitAnyTask and the rest of the loop body; enabled once there is a response. */
  function Await(s: Pool): Option<Pool> {
    if s.response == [] then None else
    match s.response[0]
    case Ready(_) => Some(s.(main := Crashed))
    case Finished(w, t) =>
      if t >= |s.records| || w >= |s.jobs| then Some(s.(main := Crashed)) else
      Some(s.(main := Scheduling, response := s.response[1..], available := s.available + [w], active := s.active - 1,
              errors := s.errors + (match s.records[t] case Some(Raised(trace)) => [ErrorString(t, trace)] case _ => []),
              jobs := s.jobs[w := Free], returned := s.returned + [t]))
  }

  /** HandleKeyboardInterrupt: mark every thread, put a wake-up in every queue, wait for them all. */
  function HandleInterrupt(s: Pool): Option<Pool>
    requires s.main.Interrupting? || s.main.Waking? || s.main.SignallingWake? || s.main.JoiningInterrupted?
  {
    var i := s.main.next;
    match s.main
    case Interrupting(_) =>
      if i >= |s.workers| then Some(s.(main := Waking(0)))
      else Some(SetWorker(s, i, s.workers[i].(interruptPending := true)).(main := Interrupting(i + 1)))
    case Waking(_) =>
      if i >= |s.workers| then Some(s.(main := JoiningInterrupted(0)))
      else Some(PutTo(s, i, WaitForKeyboardInterrupt).(main := SignallingWake(i)))
    case SignallingWake(_) =>
      if i >= |s.workers| then None else Some(SignalTo(s, i).(main := Waking(i + 1)))
    case JoiningInterrupted(_) =>
      if i >= |s.workers| then Some(s.(main := Stopping(0)))
      else if s.workers[i].place.Stopped? then Some(s.(main := JoiningInterrupted(i + 1))) else None
  }

  /** The value of every task that returned one; None for the others. */
  function Results(records: seq<Option<Outcome>>): (r: seq<Option<int>>)
    ensures |r| == |records|
  {
    seq(|records|, i requires 0 <= i < |records| =>
      match records[i] case Some(Value(v)) => Some(v) case _ => None)
  }

  /** __exit__, then what follows the with statement. */
  function Exit(c: Config, s: Pool): Option<Pool>
    requires s.main.Stopping? || s.main.SignallingStop? || s.main.Joining?
  {
    var i := s.main.next;
    match s.main
    case Stopping(_) =>
      if i >= |s.workers| then Some(s.(main := Joining(0)))
      else Some(PutTo(s, i, StopProcessing).(main := SignallingStop(i)))
    case SignallingStop(_) =>
      if i >= |s.workers| then None else Some(SignalTo(s, i).(main := Stopping(i + 1)))
    case Joining(_) =>
      if i < |s.workers| then
        if s.workers[i].place.Stopped? then Some(s.(main := Joining(i + 1))) else None
      else if s.interrupted then Some(s.(main := Reraised))
      else if s.errors != [] then Some(s.(main := RaisedErrors))
      else if |s.records| != |c.outcomes| then Some(s.(main := Crashed))
      else Some(s.(main := Returned(Results(s.records))))
  }

  function MainStep(c: Config, s: Pool): Option<Pool> {
    match s.main
    case Spawning(_) => Construct(s)
    case Bootstrapping(_) => Construct(s)
    case Scheduling => Some(Schedule(c, s))
    case SignallingTask(w) => if w < |s.workers| then Some(SignalTo(s, w).(main := Scheduling)) else None
    case Awaiting => Await(s)
    case Interrupting(_) => HandleInterrupt(s)
    case Waking(_) => HandleInterrupt(s)
    case SignallingWake(_) => HandleInterrupt(s)
    case JoiningInterrupted(_) => HandleInterrupt(s)
    case Stopping(_) => Exit(c, s)
    case SignallingStop(_) => Exit(c, s)
    case Joining(_) => Exit(c, s)
    case _ => None
  }

  // ----- A worker thread -----

  function EnterGet(wk: Worker): Worker { wk.(place := Receiving, queue := wk.queue.(reader := Acquiring)) }

  function LeaveGet(wk: Worker, place: Place): Worker { wk.(place := place, queue := wk.queue.(reader := Outside)) }

  function Dispatch(wk: Worker, m: Message): Worker {
    match m
    case StopProcessing => LeaveGet(wk, Stopped)
    case WaitForKeyboardInterrupt => LeaveGet(wk, Spinning)
    case Execute(t) => LeaveGet(wk, Running(t))
  }

  function WorkerStep(c: Config, s: Pool, w: nat): Option<Pool>
    requires w < |s.workers|
  {
    var wk := s.workers[w];
    match wk.place
    case Booting => Some(SetWorker(s, w, EnterGet(wk)).(response := s.response + [Ready(w)]))
    case Receiving =>
      (match wk.queue.reader
       case Returning(m) => Some(SetWorker(s, w, Dispatch(wk, m)))
       case _ => if !InsideGet(wk.queue) || Blocked(wk.queue) then None
                 else Some(SetWorker(s, w, wk.(queue := ReadStep(wk.queue)))))
    case Running(t) =>
      if t >= |s.records| || t >= |c.outcomes| then None else
      Some(SetWorker(s, w, wk.(place := if Exits(c, t) then Stopped else Responding(t))).(
             records := s.records[t := Some(c.outcomes[t])], ran := s.ran + [t]))
    case Responding(t) =>
      if w >= |s.jobs| then None else
      Some(SetWorker(s, w, EnterGet(wk)).(response := s.response + [Finished(w, t)], jobs := s.jobs[w := Answered(t)]))
    case _ => None
  }

  /** A pending KeyboardInterrupt cannot be delivered inside lock.acquire. */
  predicate Interruptible(wk: Worker) {
    && wk.interruptPending && !wk.place.Unborn? && !wk.place.Stopped?
    && !(wk.place.Receiving? && wk.queue.reader.Acquiring?)
  }

  function Next(c: Config, s: Pool, a: Action): Option<Pool> {
    match a
    case Main => MainStep(c, s)
    case Work(w) => if w < |s.workers| then WorkerStep(c, s, w) else None
    case Deliver(w) =>
      if w < |s.workers| && Interruptible(s.workers[w]) then Some(SetWorker(s, w, LeaveGet(s.workers[w], Stopped)))
      else None
    case CtrlC =>
      if s.main.Scheduling? || s.main.SignallingTask? || s.main.Awaiting? then
        Some(s.(main := Interrupting(0), interrupted := true))
      else None
  }

  function Run(c: Config, s: Pool, actions: seq<Action>): Option<Pool>
    decreases |actions|
  {
    if actions == [] then Some(s) else
      match Next(c, s, actions[0])
      case None => None
      case Some(t) => Run(c, t, actions[1..])
  }

  predicate Ended(s: Pool) { s.main.Returned? || s.main.RaisedErrors? || s.main.Reraised? || s.main.Crashed? }
}
