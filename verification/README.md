# Verified models of PerfKit Benchmarker's algorithmic cores

This project models, in Dafny 4.11, the parts of PerfKit Benchmarker that are more than plumbing,
and proves what their callers rely on. `dafny verify dfyconfig.toml` checks all of it.

| file | what it models |
|---|---|
| `TaskQueue.dfy`, `QueueSystem.dfy` | the queue whose reader waits on a lock, alone and with any number of writers |
| `WorkerPool.dfy` | the background-task pool: main thread, workers, task queues, response queue, Ctrl-C |
| `PoolInvariant.dfy`, `PoolTermination.dfy`, `PoolResults.dfy` | what every step of the pool keeps, why it ends, what a caller gets |
| `PollingWait.dfy` | the polling wait with its exponential back-off |
| `IntegerList.dfy`, `IntegerListText.dfy`, `Text.dfy` | compressed integer lists, their random access, their parser and their printer |
| `OverrideFlags.dfy` | overriding flags for the duration of a context |
| `BenchmarkSets.dfy`, `FlagAxes.dfy` | expansion of benchmark sets; zip and matrix of flag settings |
| `DisableCpus.dfy` | round-robin choice of the CPUs to disable |
| `EdwAggregation.dfy` | aggregation of query times of data warehouse benchmarks |
| `VmGroup.dfy` | reconciliation of a managed VM group with the cloud |
| `LogFilter.dfy`, `LogFields.dfy`, `LogChain.dfy`, `LogBurst.dfy` | the log filter that shortens repeated messages, what it does field by field, and two in series |
| `Common.dfy` | optional values, results, and small facts about sequences, sums and division |

## How the pool is modelled

A state holds everything the threads share and where each thread is. One action is one stretch of a
thread that no other thread can observe half done: `Put` is an append and then a release, `Get` is an
acquire, a test, a pop, a second test and a release, each a step of its own. A run is any sequence of
actions, so a statement about every reachable state is a statement about every interleaving. The
fields `jobs`, `ran` and `returned` of the pool (and `appended` and `delivered` of the queue system)
are histories: no step looks at them to decide what to do.

The asynchronous exception that `HandleKeyboardInterrupt` raises in a worker is a flag of that
worker; it can be delivered at any moment at which the worker is not inside `lock.acquire`. A Ctrl-C
can reach the main thread at every blocking point and between the two halves of `StartTask`'s `Put`.

A target returns a value, raises an `Exception`, or exits: `Run` catches only `Exception`, so a target
that raises `SystemExit` or the like ends its worker, which then never answers.

## Where the code and its promise part

Each of these is proved with the exact condition.

* The pool deadlocks when there is a task to run and either the limit is below one, so that no worker
  is made, or some target exits: the scheduler comes to wait for a response that nobody sends
  (`DeadlockFreedom`). Ctrl-C is the only way out, and it always is one (`EveryScheduleEnds`).
* Random access into an integer list disagrees with iteration when an empty range stands at the front
  or behind a non-empty group and does not start with the number that follows it (`IndexingAgreesIff`;
  `[(5, 3), 7]` iterates over 7, but its element 0 is 5).
* Writing an integer list and reading it back changes what it stands for exactly when a range has
  falling bounds and a positive step: it comes back turned round (`SameExpansionIff`;
  `EmptyRangeTurnsRound` reads the empty range (5, 3) back as 5, 4, 3). The empty list
  is written as the empty text, which the parser rejects, and a strict parser rejects what does not
  rise (`RoundTrip`).
* `IntegerList` is called a list of nonnegative integers; the parser makes lists with negative ones
  (`ParsedNegative`), and a list is free of them exactly when the smallest item of every non-empty group
  is (`NonnegativeIff`).
* "We can't disable cpu 0" holds for nodes of equal size (`Cpu0StaysOn`). In general the first CPU of the
  lowest node is disabled exactly when no node has fewer CPUs than that one and the request takes at
  least that many full rounds, whether the request is met or not (`FirstCpuDisabledIff`,
  `DisabledFirstIff`, `UnequalNodesLoseCpu0`). The generator runs into an empty list exactly when some
  node has fewer CPUs than it gets turns (`AllPossibleIff`), which can happen to a request for fewer CPUs
  than there are (`UnequalNodesRunOut`).
* `is_successful` of a power iteration means that all its queries succeeded exactly when the total it
  was created with is the number of different expected queries (`SuccessMeansAllSucceeded`,
  `SmallTotalHidesFailure`).
* A failed update of a VM group leaves the new size recorded. A group in step with its size gets out of
  step exactly when an update fails for a request that means another size (`InStepIff`); after any run
  it is in step exactly when the requests accepted since the last success add up to no change
  (`NamesAreTheLastSuccess`, `FailuresInAndOutOfStep`).

## Two log filters in series

The root logger has two handlers with a filter each, so the log file's filter sees the notices that the
terminal's filter has written in place of repeated messages. A message logged k times in a row, with
nothing in between, stays in the first filter's window throughout, and in the second one's exactly if it
is not worth shortening or k is at most five (`LogBurst.RememberedIff`); beyond that the notices have
filled the window. The statement is about messages whose notices differ from them and are left alone by
the clean-up of timings; `LogBurst.ExampleRecord` is one.

## Model

| member | source | states |
|---|---|---|
| `TaskQueue.ReadStepKeeps` | `perfkitbenchmarker/background_tasks.py:185-201` | No step of Get, at any point where another thread may run, loses a wake-up or an item: a reader away from a non-empty deque finds the lock free or a release still owed, and nothing is popped from an empty deque |
| `TaskQueue.ReadStepDescends` | `perfkitbenchmarker/background_tasks.py:194-201` | Get makes progress at every step; a lock left free over an empty deque costs one round and no more |
| `TaskQueue.NonPollingSingleReaderQueue.constructor` | `perfkitbenchmarker/background_tasks.py:180-183` | A new queue is empty and holds its own lock |
| `TaskQueue.NonPollingSingleReaderQueue.SignalAvailableItem` | `perfkitbenchmarker/background_tasks.py:188-192` | Releasing is idempotent: the lock is free afterwards, whether it was held or not |
| `TaskQueue.NonPollingSingleReaderQueue.Put` | `perfkitbenchmarker/background_tasks.py:203-205` | An undisturbed Put is the append step followed by the release step |
| `TaskQueue.NonPollingSingleReaderQueue.Get` | `perfkitbenchmarker/background_tasks.py:194-201` | Returns the oldest item, waits for at most one arrival and only on an empty queue, keeps the order of the rest, and leaves no wake-up lost |
| `QueueSystem.EveryRunIsSafe` | `perfkitbenchmarker/background_tasks.py:172-205` | Under every interleaving of any number of writers and the reader, items are delivered in append order, each once, no wake-up is lost and no empty deque is popped |
| `QueueSystem.RunsEnd` | `perfkitbenchmarker/background_tasks.py:194-205` | No interleaving is longer than a bound known at its start |
| `QueueSystem.NothingIsLost` | `perfkitbenchmarker/background_tasks.py:172-205` | When nothing can move any more, every item of every writer has been delivered exactly once and in that writer's order: the reader is never left blocked on a non-empty queue |
| `PoolInvariant.StartOk` | `perfkitbenchmarker/background_tasks.py:355-364` | The invariant of the pool holds before the first thread is started |
| `PoolInvariant.SpawnKeeps` | `perfkitbenchmarker/background_tasks.py:362-371` | Starting a worker keeps it |
| `PoolInvariant.BootstrapKeeps` | `perfkitbenchmarker/background_tasks.py:375-378` | Waiting for the workers keeps it: the response is a bare worker id not yet heard from, so neither remove nor the assertion fails |
| `PoolInvariant.ScheduleKeeps` | `perfkitbenchmarker/background_tasks.py:535-547` | The scheduler's choice keeps it: whenever a task may start there is a free worker, so the assertion of StartTask never fires |
| `PoolInvariant.StartTaskKeepsBooks` | `perfkitbenchmarker/background_tasks.py:387-395` | StartTask moves one id from the free stack to the task it starts |
| `PoolInvariant.AwaitKeeps` | `perfkitbenchmarker/background_tasks.py:397-400` | AwaitAnyTask takes a pair, never a bare id, returns the task it names for the first time and frees the worker that ran it |
| `PoolInvariant.ReturnRecord` | `perfkitbenchmarker/background_tasks.py:549-561` | A returned task has run, its record is what its target does, and its failure is noted once |
| `PoolInvariant.HandleInterruptKeeps` | `perfkitbenchmarker/background_tasks.py:402-413` | Marking, waking and joining the workers keeps the invariant, in whatever state the interrupt found them |
| `PoolInvariant.ExitKeeps` | `perfkitbenchmarker/background_tasks.py:380-385` | Shutting the workers down keeps it, and what follows the with statement finds every task recorded |
| `PoolInvariant.WorkerBoots` | `perfkitbenchmarker/background_tasks.py:329-332` | A worker announces its id once, before it reads its queue |
| `PoolInvariant.WorkerDispatches` | `perfkitbenchmarker/background_tasks.py:332-338` | A worker runs exactly the task it was given, and stops or spins only when told to |
| `PoolInvariant.WorkerRuns` | `perfkitbenchmarker/background_tasks.py:249-255` | Running a task happens once and records the value or the traceback in that task, or ends the worker if the target exits |
| `PoolInvariant.WorkerResponds` | `perfkitbenchmarker/background_tasks.py:338-340` | The answer names the worker and its task, and is put in the response queue once |
| `PoolInvariant.DeliverKeeps` | `perfkitbenchmarker/background_tasks.py:341-349` | A KeyboardInterrupt delivered at any interruptible point of a worker keeps the invariant |
| `PoolInvariant.StepKeeps` | `perfkitbenchmarker/background_tasks.py:310-582` | Every step of every thread, and a Ctrl-C, keeps the whole invariant |
| `PoolInvariant.RunKeeps` | `perfkitbenchmarker/background_tasks.py:310-582` | So does every run |
| `PoolTermination.StepDescends` | `perfkitbenchmarker/background_tasks.py:194-205` | A weighted count of tasks, queued items, free locks and thread positions falls at every step of every schedule |
| `PoolTermination.RunsEnd` | `perfkitbenchmarker/background_tasks.py:528-582` | No schedule is longer than the weight of the state it starts in |
| `PoolTermination.BusyWorkerMoves` | `perfkitbenchmarker/background_tasks.py:329-340` | A live worker that has a task or a control message to deal with, and no wake-up outstanding, can take a step or be interrupted |
| `PoolTermination.SomeoneMoves` | `perfkitbenchmarker/background_tasks.py:528-551` | Until the run has ended some thread of the pool can take a step, unless the scheduler waits for a response that cannot come; after a Ctrl-C one always can |
| `PoolResults.EveryIdInOnePlace` | `perfkitbenchmarker/background_tasks.py:387-400` | In every reachable state each worker id is in exactly one place: on the free stack, or with a task assigned that a live worker has queued, in hand or running (a stopped one was stopped by a Ctrl-C or by that task), or with its answer in the response queue; no two owe the same task; free ids and active tasks add up to the concurrency limit; no assertion, KeyError, TypeError or IndexError can happen |
| `PoolResults.ConcurrencyIsCapped` | `perfkitbenchmarker/background_tasks.py:529-540` | In every reachable state there are as many workers as the limit allows and tasks can use, no more tasks than that run at once, and the scheduler waits with tasks unstarted only if every worker has one |
| `PoolResults.CarriedIsAssigned` | `perfkitbenchmarker/background_tasks.py:332-340` | A live worker has in its queue or in hand exactly the task it was assigned, never two and never another's |
| `PoolResults.ResponsesAreUnmixed` | `perfkitbenchmarker/background_tasks.py:375-378` | The untagged response queue holds bare ids during construction only, each once, and pairs afterwards only |
| `PoolResults.AtMostOnce` | `perfkitbenchmarker/background_tasks.py:535-551` | No task runs twice and none is returned twice, not even around a Ctrl-C; a returned task has run and did not exit |
| `PoolResults.EveryTaskOnce` | `perfkitbenchmarker/background_tasks.py:535-551` | A run that ends uninterrupted has run every task once and returned every task once, with every worker stopped; so no target has exited |
| `PoolResults.ErrorsAreTheFailures` | `perfkitbenchmarker/background_tasks.py:552-561` | Whatever the order of completion, error_strings holds the message of each failed task once and nothing else |
| `PoolResults.RefinesSequentialMap` | `perfkitbenchmarker/background_tasks.py:572-582` | An uninterrupted run that ends returns, at place t, the value of target t if none fails, and raises if and only if one fails |
| `PoolResults.InterruptReachesEveryThread` | `perfkitbenchmarker/background_tasks.py:402-413` | Once every queue has its wake-up, no live thread is stuck in its lock; when the interrupt is re-raised no thread is left |
| `PoolResults.DeadlockFreedom` | `perfkitbenchmarker/background_tasks.py:529-551` | The pool never gets stuck if and only if there is nothing to do, or the limit is at least one and no target exits |
| `PoolResults.Exhaust` | `perfkitbenchmarker/background_tasks.py:535-551` | From every uninterrupted state of every run the threads come to a state in which none can move |
| `PoolResults.EveryScheduleEnds` | `perfkitbenchmarker/background_tasks.py:528-582` | Every schedule is finite; where no thread can move the run has ended or the scheduler waits for ever, and then a Ctrl-C is still possible, after which every run ends |
| `PoolResults.RunParallelTasks` | `perfkitbenchmarker/background_tasks.py:528-582` | For any targets, limit, scheduler and Ctrl-C: results of the sequential map, exactly the failures, the interrupt re-raised, or a wait for ever for want of a worker |
| `PollingWait.WaitForCondition` | `perfkitbenchmarker/background_tasks.py:137-148` | The condition is tested at least once and the wait ends at the first poll that holds; a timed-out wait is at least as long as its timeout, less than 50 ms late, and shorter than twice the timeout and 1 ms; every pause is between 1 and 50 ms |
| `PollingWait.PausesDouble` | `perfkitbenchmarker/background_tasks.py:138-148` | Pause k in closed form: the shortest delay doubled k times, at most 50 ms and at most the time that remained before the pause ahead of it, however earlier pauses were cut short |
| `IntegerLists.RangeAt` | `perfkitbenchmarker/flag_util.py:122-126` | Item i of a range is start plus i steps and lies within the bounds |
| `IntegerLists.ItemsMembers` | `perfkitbenchmarker/flag_util.py:122-126` | An integer is in a range if and only if it lies whole steps beyond the first bound and not beyond the second, both bounds included, for either sign of the step |
| `IntegerLists.ItemsCount` | `perfkitbenchmarker/flag_util.py:122-126` | How many items a range has, and that item i is the first bound and i steps |
| `IntegerLists.ExpandAppend` | `perfkitbenchmarker/flag_util.py:109-114` | Iteration yields the groups one after another |
| `IntegerLists.Create` | `perfkitbenchmarker/flag_util.py:57-67` | The length kept is the number of items that iteration yields; a step of zero is an error |
| `IntegerLists.GetItem` | `perfkitbenchmarker/flag_util.py:72-97` | The index walk stays within the groups, ends, and returns the element of its closed description, or an IndexError outside the list |
| `IntegerLists.IndexingAgreesIff` | `perfkitbenchmarker/flag_util.py:72-114` | Every valid index gives the item that iteration yields there if and only if no empty range is misleading |
| `IntegerLists.NonEmptyGroupsAgree` | `perfkitbenchmarker/flag_util.py:72-114` | In particular every valid index of a list of non-empty groups gives the item that iteration yields there |
| `IntegerLists.EmptyRangeMisleads` | `perfkitbenchmarker/flag_util.py:94-97` | A list whose element 0 is not the first item it iterates over |
| `IntegerListText.MatchMeansPattern` | `perfkitbenchmarker/flag_util.py:31-32` | A group is accepted if and only if it is one to three unsigned numbers joined by dashes or signed numbers joined by colons, and is then read as those numbers |
| `IntegerListText.MatchMeansText` | `perfkitbenchmarker/flag_util.py:31-32` | A group's text is accepted if and only if it has that form, with or without a final newline |
| `Text.NatTextDigits` | `perfkitbenchmarker/flag_util.py:248-252` | Decimal digits as str writes them |
| `Text.NatValueDigits` | `perfkitbenchmarker/flag_util.py:221-230` | Decimal digits as int reads them, leading zeros included |
| `IntegerListText.ParseGroup` | `perfkitbenchmarker/flag_util.py:214-236` | The body of the parse loop, with both error cases and the sign rule of the step |
| `IntegerListText.Parse` | `perfkitbenchmarker/flag_util.py:205-238` | The parse loop computes the groups and the length of its specification, or the first error |
| `IntegerListText.FewNumbersMean` | `perfkitbenchmarker/flag_util.py:220-236` | One number stands for itself, two for the integers between them, both included, starting with the first, whichever is the larger |
| `IntegerListText.StepMeans` | `perfkitbenchmarker/flag_util.py:228-236` | Three numbers stand for the integers whole steps from the first and not beyond the second; a positive step leads towards the second number, up or down, a negative one down |
| `IntegerListText.MatchWritten` | `perfkitbenchmarker/flag_util.py:246-248` | The choice between dash and colon is right: a group as written is matched as the numbers it was written from |
| `IntegerListText.WrittenText` | `perfkitbenchmarker/flag_util.py:246-253` | A group is written as its numbers with dashes between them, or colons if one is negative |
| `IntegerListText.WrittenList` | `perfkitbenchmarker/flag_util.py:250-254` | A list is written as its groups with commas between them |
| `IntegerListText.RoundTrip` | `perfkitbenchmarker/flag_util.py:211-254` | In every mode, reading what was written gives the same groups up to the step rule; the strict mode refuses it if and only if these do not rise, and the empty list is not readable |
| `IntegerListText.ParsedListsRoundTrip` | `perfkitbenchmarker/flag_util.py:211-254` | A list that came out of the parser in any mode is unchanged by writing and reading it in any mode, except that the strict mode refuses it if it does not rise; a list parsed strictly is read back strictly |
| `IntegerListText.SameExpansionIff` | `perfkitbenchmarker/flag_util.py:211-254` | Where the text can be read back, which the strict mode alone can refuse, the expansion is kept if and only if no range has falling bounds and a positive step; so for every list of non-empty groups |
| `IntegerListText.EmptyRangeTurnsRound` | `perfkitbenchmarker/flag_util.py:228-248` | The empty range (5, 3) is read back as 5, 4, 3 |
| `IntegerListText.ParsedEmptyGroups` | `perfkitbenchmarker/flag_util.py:228-236` | The only empty groups the parser makes have an explicit negative step and rising bounds |
| `IntegerListText.IncreasingCheckIsSound` | `perfkitbenchmarker/flag_util.py:129-148` | In exception mode exactly the texts whose groups rise are accepted, the others refused as not increasing, and every accepted list is strictly increasing item by item |
| `IntegerListText.RisingMeans` | `perfkitbenchmarker/flag_util.py:139-148` | What the strict mode asks for: every range has a lower bound below its upper one, and every group starts above the upper bound of the group before it |
| `IntegerListText.NonnegativeIff` | `perfkitbenchmarker/flag_util.py:35-55` | The integers of a list are nonnegative if and only if the smallest item of every non-empty group is, in closed form |
| `IntegerListText.ParsedNegative` | `perfkitbenchmarker/flag_util.py:211-238` | A negative integer is written, read and iterated over |
| `FlagOverrides.OverrideFlags.EnterContext` | `perfkitbenchmarker/flag_util.py:289-309` | Flags that are present stay, the others are saved and overridden, in order, up to the first unknown option or invalid value |
| `FlagOverrides.OverrideFlags.ExitContext` | `perfkitbenchmarker/flag_util.py:311-317` | Every saved flag gets its value back and is no longer present; no other flag changes |
| `FlagOverrides.EnterThenRestore` | `perfkitbenchmarker/flag_util.py:289-309` | What entering saves and changes, flag by flag; after a successful entry every configured flag is present |
| `FlagOverrides.EnterOverrides` | `perfkitbenchmarker/flag_util.py:294-303` | Inside the context a configured flag that had its default has the configured value, parsed, and counts as given once; one that was given keeps its value |
| `FlagOverrides.EnterLeavesOthers` | `perfkitbenchmarker/flag_util.py:294-303` | A flag that is not configured is as it was, and nothing is saved of it |
| `FlagOverrides.EnterSucceedsIff` | `perfkitbenchmarker/flag_util.py:294-309` | Entering succeeds if and only if every key is a flag and every value needed can be parsed |
| `FlagOverrides.EnterFailsAtFirst` | `perfkitbenchmarker/flag_util.py:294-309` | Otherwise it fails at the first key that is no flag or whose value cannot be parsed, with the error for that key |
| `FlagOverrides.LeavingUndoesEntering` | `perfkitbenchmarker/flag_util.py:289-317` | Restoring what entering saved gives back all flags |
| `FlagOverrides.NestedContextsUnwind` | `perfkitbenchmarker/flag_util.py:289-317` | At every point of every nesting, leaving all open contexts gives back the flags of the start |
| `FlagOverrides.NestedContextsRestore` | `perfkitbenchmarker/flag_util.py:289-317` | Properly nested contexts restore every value and presence, and never touch a flag that was present |
| `BenchmarkSets.UnseenFalls` | `perfkitbenchmarker/benchmark_sets.py:451-459` | Every round sees a new name or shortens the queue, so the loop ends on cyclic tables |
| `BenchmarkSets.ExpandNames` | `perfkitbenchmarker/benchmark_sets.py:447-459` | The worklist loop computes its specification, names in the order found |
| `BenchmarkSets.WorklistAppend` | `perfkitbenchmarker/benchmark_sets.py:451-459` | The expansion of a queue is that of its front followed by what the rest adds |
| `BenchmarkSets.SetsComeInPlace` | `perfkitbenchmarker/benchmark_sets.py:451-459` | A set puts the benchmarks of its members, last member first, ahead of those that the names behind it add |
| `BenchmarkSets.ExpansionIsReachability` | `perfkitbenchmarker/benchmark_sets.py:432-459` | For any table, cyclic or not, the expansion is exactly the non-set names reachable from the requested ones, each once |
| `FlagAxes.GetConfigForAxis` | `perfkitbenchmarker/benchmark_sets.py:380-387` | Makes a new config and a new flag dictionary: global flags, then local ones, then the settings in order; nothing that existed is changed |
| `FlagAxes.ZipConfigs` | `perfkitbenchmarker/benchmark_sets.py:511-520` | One config per row of the zip, or an error if and only if two axes differ in length, spelt out on the lengths |
| `FlagAxes.GetConfigs` | `perfkitbenchmarker/benchmark_sets.py:509-538` | The configs are those of the combinations that pass the filter, in order, each repeated as often as copies were asked for; they are new objects, and the source config is untouched |
| `FlagAxes.FilterKeeps` | `perfkitbenchmarker/benchmark_sets.py:529-538` | With a filter, the configs are those of the combinations that pass, all of them, each once and in order |
| `FlagAxes.ProductAt` | `perfkitbenchmarker/benchmark_sets.py:526-529` | The combination at the rank of a choice is that choice |
| `FlagAxes.CombinationPerConfig` | `perfkitbenchmarker/benchmark_sets.py:526-529` | Every position belongs to exactly one choice |
| `FlagAxes.ProductAppend` | `perfkitbenchmarker/benchmark_sets.py:526-529` | A further axis varies fastest: each combination of the others is followed by all its values in turn |
| `FlagAxes.CrossedSize` | `perfkitbenchmarker/benchmark_sets.py:509-529` | There are (rows of the zip, or 1) times the product of the lengths of the matrix axes combinations |
| `FlagAxes.ConfigPerCombination` | `perfkitbenchmarker/benchmark_sets.py:509-538` | Without a filter there is one config per row and choice, with the global flags overlaid by local flags, row and choice; laying the merged row over its own base is absorbed |
| `FlagAxes.LayeredLookup` | `perfkitbenchmarker/benchmark_sets.py:380-387` | The matrix decides a flag's value before the zip, the zip before the config, the config before the global flags |
| `FlagAxes.RepeatedAt` | `perfkitbenchmarker/benchmark_sets.py:536-538` | Each config has exactly its copies, next to one another |
| `DisableCpus.SortCpusSorts` | `perfkitbenchmarker/linux_virtual_machine.py:836-839` | The CPUs of a node are sorted by core and id, none lost |
| `DisableCpus.ListOrder` | `perfkitbenchmarker/linux_virtual_machine.py:836-839` | On a node the CPUs are in the order of their core ids, and those of one core in the order of their own ids |
| `DisableCpus.NodesOfFalls` | `perfkitbenchmarker/linux_virtual_machine.py:843-845` | The nodes are visited highest first, each once |
| `DisableCpus.OnNodeHolds` | `perfkitbenchmarker/linux_virtual_machine.py:829-833` | A node gets exactly the CPUs with its physical id |
| `DisableCpus.GetCPUsToDisable` | `perfkitbenchmarker/linux_virtual_machine.py:841-850` | The generator yields the number of CPUs asked for, one per turn in closed form, or stops with an IndexError at the first turn whose node is empty; what is left on the nodes is stated list by list |
| `DisableCpus.DisableCpus` | `perfkitbenchmarker/linux_virtual_machine.py:804-857` | CPU k disabled is the last one left on the node of rank k modulo m; each node keeps all but the last CPUs of its list, one for each of its turns; an IndexError comes exactly at the first impossible turn |
| `DisableCpus.TurnCount` | `perfkitbenchmarker/linux_virtual_machine.py:844-850` | Of the first n turns the node of rank r gets n / m, and one more if r is below n modulo m |
| `DisableCpus.AllPossibleIff` | `perfkitbenchmarker/linux_virtual_machine.py:844-850` | No pop hits an empty list if and only if every node has as many CPUs as it gets turns |
| `DisableCpus.NeverTwice` | `perfkitbenchmarker/linux_virtual_machine.py:844-850` | No CPU is disabled twice |
| `DisableCpus.CoresGoTogether` | `perfkitbenchmarker/linux_virtual_machine.py:827-850` | A node loses its cores from the highest one down and the CPUs of one core at consecutive turns of that node, highest id first |
| `DisableCpus.SiblingsGoTogether` | `perfkitbenchmarker/linux_virtual_machine.py:827-850` | Two cores of two hyper-threads: a request for two takes both CPUs of core 1 |
| `DisableCpus.Balanced` | `perfkitbenchmarker/linux_virtual_machine.py:824-826` | The nodes lose numbers of CPUs that differ by at most one |
| `DisableCpus.FirstCpuSurvivesIff` | `perfkitbenchmarker/linux_virtual_machine.py:823-850` | For a request that is met in full: the first CPU of the lowest node is disabled if and only if that node is emptied |
| `DisableCpus.FirstCpuDisabledIff` | `perfkitbenchmarker/linux_virtual_machine.py:823-850` | For every request, met in full or not: the first CPU of the lowest node comes to its turn, before any empty node, if and only if no node is smaller than that one and the request takes as many full rounds as it has CPUs |
| `DisableCpus.DisabledFirstIff` | `perfkitbenchmarker/linux_virtual_machine.py:823-854` | The same for the list of CPUs that a request really disabled |
| `DisableCpus.EqualNodesKeepCpu0` | `perfkitbenchmarker/linux_virtual_machine.py:823-850` | With equal nodes every request below the number of CPUs is met and spares the first CPU of the lowest node |
| `DisableCpus.Cpu0StaysOn` | `perfkitbenchmarker/linux_virtual_machine.py:823-854` | The same from /proc/cpuinfo on: CPU 0, on the lowest node and core, is never disabled on a machine with equal nodes |
| `DisableCpus.UnequalNodesLoseCpu0` | `perfkitbenchmarker/linux_virtual_machine.py:829-850` | A machine of four CPUs, from its /proc/cpuinfo entries on, that loses CPU 0 to a request for two |
| `DisableCpus.UnequalNodesRunOut` | `perfkitbenchmarker/linux_virtual_machine.py:829-850` | A machine of five CPUs, from its /proc/cpuinfo entries on, on which a request for four runs into an empty node after three, CPU 0 among them |
| `EdwAggregation.EdwPowerIterationPerformance.constructor` | `perfkitbenchmarker/edw_benchmark_results_aggregator.py:246-253` | A new iteration's count and sum agree with its queries |
| `EdwAggregation.EdwPowerIterationPerformance.AddQueryPerformance` | `perfkitbenchmarker/edw_benchmark_results_aggregator.py:276-290` | A new query is added and keeps the count equal to the successful entries and the wall time equal to the sum; a duplicate is an error and changes nothing |
| `EdwAggregation.EdwPowerIterationPerformance.IsSuccessful` | `perfkitbenchmarker/edw_benchmark_results_aggregator.py:435-441` | True if and only if the names that ran are the expected ones and the total is the number of queries whose time is not -1 |
| `EdwAggregation.SuccessMeansAllSucceeded` | `perfkitbenchmarker/edw_benchmark_results_aggregator.py:435-441` | A successful iteration has no failed query if and only if its total is the number of different expected queries |
| `EdwAggregation.SmallTotalHidesFailure` | `perfkitbenchmarker/edw_benchmark_results_aggregator.py:435-441` | An iteration that is successful although one of its two queries failed |
| `EdwAggregation.EdwBenchmarkPerformance.AddIterationPerformance` | `perfkitbenchmarker/edw_benchmark_results_aggregator.py:1037-1042` | A second iteration of the same id is an error and changes nothing |
| `EdwAggregation.EdwBenchmarkPerformance.IsSuccessful` | `perfkitbenchmarker/edw_benchmark_results_aggregator.py:1044-1052` | True if every iteration is successful; without an iteration it is an error |
| `EdwAggregation.EdwBenchmarkPerformance.AggregatedQueryStatus` | `perfkitbenchmarker/edw_benchmark_results_aggregator.py:1054-1072` | True if and only if in every iteration the query ran with a time other than -1 |
| `EdwAggregation.EdwBenchmarkPerformance.AggregatedQueryExecutionTime` | `perfkitbenchmarker/edw_benchmark_results_aggregator.py:1074-1095` | The mean over the total number of iterations, or the error cases |
| `EdwAggregation.EdwBenchmarkPerformance.AggregatedWallTime` | `perfkitbenchmarker/edw_benchmark_results_aggregator.py:1188-1211` | The mean of the sums of all queries' times, resting on the running sums |
| `EdwAggregation.TimeByName` | `perfkitbenchmarker/edw_benchmark_results_aggregator.py:282-290` | Summing an iteration's times by name, in any order, is its wall time |
| `EdwAggregation.SumsExchange` | `perfkitbenchmarker/edw_benchmark_results_aggregator.py:1074-1095` | Summing per query and then over queries is summing per iteration and then over iterations |
| `EdwAggregation.QueryTimesAddUpToWallTime` | `perfkitbenchmarker/edw_benchmark_results_aggregator.py:1074-1211` | If all iterations are successful the aggregated times of the expected queries exist and add up to the aggregated wall time |
| `VmGroup.ManagedVmGroup.RetireVm` | `perfkitbenchmarker/managed_vm_group.py:214-217` | A VM moves from the live ones to the deleted ones and is marked |
| `VmGroup.ManagedVmGroup.AddVm` | `perfkitbenchmarker/managed_vm_group.py:220-225` | A new VM object is a copy of the template with the instance's name, and its zone if it has one; the template stays |
| `VmGroup.ManagedVmGroup.Reconcile` | `perfkitbenchmarker/managed_vm_group.py:206-233` | Live names become the cloud's names; survivors keep their object unchanged, the others end up deleted, newcomers are new objects |
| `VmGroup.ManagedVmGroup.UpdateVmList` | `perfkitbenchmarker/managed_vm_group.py:205-233` | The same, or an error that changes nothing when the number is not the one meant |
| `VmGroup.ManagedVmGroup.RunOperation` | `perfkitbenchmarker/managed_vm_group.py:196-203` | The new size is recorded first and stays recorded when the update fails |
| `VmGroup.ManagedVmGroup.Perform` | `perfkitbenchmarker/managed_vm_group.py:170-194` | AddVms, RemoveVms, Resize and the first update: the new size in each case, when a request is refused, and agreement with the simple history of size and names |
| `VmGroup.ManagedVmGroup.PerformAll` | `perfkitbenchmarker/managed_vm_group.py:170-233` | Over any sequence of requests every VM object ever made is in exactly one of live and deleted, marked accordingly, and never revived |
| `VmGroup.NamesAreTheLastSuccess` | `perfkitbenchmarker/managed_vm_group.py:176-233` | After any sequence of requests the live names are those reported at the last success, and they number the size meant if and only if the requests accepted since then add up to no change |
| `VmGroup.NamesBeforeSuccess` | `perfkitbenchmarker/managed_vm_group.py:176-233` | Before the first success the names stay and the size follows the accepted requests |
| `VmGroup.InStepIff` | `perfkitbenchmarker/managed_vm_group.py:176-213` | One request keeps names and size in step if and only if it is refused, succeeds or means the present size |
| `VmGroup.FailuresInAndOutOfStep` | `perfkitbenchmarker/managed_vm_group.py:196-213` | A failed addition that leaves the size wrong, and failures that do not |
| `LogFilter.PkbLogFilter.Filter` | `perfkitbenchmarker/log_util.py:247-276` | The record is kept, gets its label, and its text becomes what the history of the filter says; the window stays the history's |
| `LogFilter.PkbLogFilter.Recall` | `perfkitbenchmarker/log_util.py:256-275` | Scan, append or count, and the notice |
| `LogFilter.WindowRefinesHistory` | `perfkitbenchmarker/log_util.py:240-265` | The window is always the last five fresh records, each with the number of its repeats since |
| `LogFilter.RecentAreApart` | `perfkitbenchmarker/log_util.py:223-265` | The remembered records are pairwise unequal |
| `LogFilter.FreshAreSpaced` | `perfkitbenchmarker/log_util.py:240-265` | A message counts as new again only after five other fresh ones |
| `LogFilter.FreshRecordsAreFull` | `perfkitbenchmarker/log_util.py:260-265` | Every fresh record is shown in full |
| `LogFilter.ShortenedExactly` | `perfkitbenchmarker/log_util.py:256-276` | A record is shortened if and only if an equal one of the same label, shown in full before, is among the last five fresh ones and is worth shortening; the notice carries that one's time and text and the number of repeats so far |
| `LogFields.MessageMeans` | `perfkitbenchmarker/log_util.py:164-181` | Records are compared by their text, cleaned of timings if it mentions WallTime, and their label |
| `LogFields.FreshMeans` | `perfkitbenchmarker/log_util.py:223-265` | A record becomes fresh if and only if it is at most 100 MB long and none of the five fresh ones before it has its message and label |
| `LogFields.FreshAreFarApart` | `perfkitbenchmarker/log_util.py:240-265` | Fresh records of the same message and label are at least six apart among the fresh ones |
| `LogFields.ShortenedMeans` | `perfkitbenchmarker/log_util.py:183-191` | A record is shortened if and only if it is at most 100 MB long, has several lines, does not forbid it, and one of the last five fresh ones has its message and label and over 220 characters |
| `LogFields.ShortenedRepeatsFullOne` | `perfkitbenchmarker/log_util.py:256-275` | A shortened record repeats an earlier one of its message and label that was shown in full; the notice has that one's time, and counts the records like it since |
| `LogFields.NewLabelIsFull` | `perfkitbenchmarker/log_util.py:223-229` | The first record of a label is shown in full, whatever other labels have logged |
| `LogFields.NeverShortened` | `perfkitbenchmarker/log_util.py:183-196` | Never shortened: over 100 MB, on one line, marked DO NOT DEDUPLICATE, or seen before only with at most 220 characters |
| `LogFields.TruncatedMeans` | `perfkitbenchmarker/log_util.py:197-210` | The notice shows the message, cleaned of ssh noise where there is some, up to 150 characters and three dots |
| `LogFields.NoticeExample` | `perfkitbenchmarker/log_util.py:267-275` | The wording of a notice |
| `LogChain.LogToBoth` | `perfkitbenchmarker/log_util.py:330-353` | A record through both handlers' filters: the second one's history is what the first one makes of its own, and the record ends up as both leave it |
| `LogChain.NoticeReachesSecond` | `perfkitbenchmarker/log_util.py:266-275` | What the second filter sees of a record shortened by the first: a notice with the time and text of the record repeated and the number of its repeats |
| `LogChain.RepeatedRecord` | `perfkitbenchmarker/log_util.py:254-275` | A record logged again and again reaches the second filter once, and then as the notices 1, 2, 3 and so on |
| `LogChain.NoticesDiffer` | `perfkitbenchmarker/log_util.py:266-275` | The notices of one record all differ |
| `LogChain.NoticesAreNeverMerged` | `perfkitbenchmarker/log_util.py:256-275` | If the second filter shortens a notice once more, it is for the sake of a remembered record, and that record is not another notice of the same one, if neither text mentions WallTime, which the clean-up of timings looks for |
| `LogChain.BurstFillsSecondWindow` | `perfkitbenchmarker/log_util.py:240-275` | Five notices of one record in a row that are plain, short enough to keep and new to the second filter leave it with these and nothing else, while the first still remembers the record |
| `LogBurst.ForgetsAfterFive` | `perfkitbenchmarker/log_util.py:240-275` | While such notices come in, the second filter forgets the record it took last before them if and only if there have been five |
| `LogBurst.RepeatsAreBurst` | `perfkitbenchmarker/log_util.py:240-275` | A record worth shortening with plain notices, logged again and again, brings about such notices |
| `LogBurst.RememberedIff` | `perfkitbenchmarker/log_util.py:240-275` | A record logged k times in a row is remembered by the first filter, and by the second if and only if it is not worth shortening or k is at most five |
| `LogBurst.ExampleIsForgotten` | `perfkitbenchmarker/log_util.py:240-275` | A record of two lines and 231 characters, logged six times, that the second filter has forgotten and the first has not |

## Left out

- The process-based task manager, its signal handlers and `ProcessPoolExecutor`: thin use of the standard library.
- A second Ctrl-C, a Ctrl-C during `__init__` or `__exit__`, and a Ctrl-C between two statements of the main thread that touch no shared state; a main-thread stretch is one step.
- The pool and the queue under interleaving are values that steps transform, not shared objects that threads mutate: Dafny methods do not interleave. The queue class beside them has the source's in-place form.
- The response queue's own polling: its Get is enabled when the queue is not empty; `PollingWait` proves the polling loop by itself.
- Thread context, log output and call strings of tasks, and `post_task_delay`. A task is an opaque function that returns, raises an `Exception` or ends its thread.
- PollingWait.WaitForCondition: the clock is exact and only sleeping takes time; without a timeout some poll must answer, since the source may wait for ever.
- IntegerListText.MatchMeansPattern: digits are the ASCII ones, as in IntegerListText.Parse.
- IntegerListText.Parse: digits are the ASCII ones, while `\d` and `int` accept other Unicode digits; arguments that are lists, integers or integer lists already are passed through by the source and are not modelled; warnings are not recorded.
- FlagOverrides.OverrideFlags.EnterContext: flag aliases are not translated, and a flag's own parser is an arbitrary function. A context that fails to enter is not left, as in Python.
- The benchmark module lookup, validation of names and of zip and matrix definitions, and reading of YAML. The filter expression is an arbitrary predicate on the final flags, and the axes of the matrix come in their sorted order.
- FlagAxes.GetConfigs: entries of a config other than its flags are values, so sharing between shallow copies is not modelled.
- DisableCpus.GetCPUsToDisable: there is at least one node; without one the source's generator would not end.
- DisableCpus.DisableCpus: the machine lists at least one CPU; on an empty list the source's generator would not end.
- Geometric means, throughput iterations, metadata and samples of EDW results, and rounding: times are exact reals.
- VmGroup.ManagedVmGroup.UpdateVmList: the names that the cloud reports are assumed different, booting of new VMs cannot fail, and they are added one after another.
- LogFilter.PkbLogFilter.Filter: a record passes a filter once, as the logging module arranges.
- LogChain.LogToBoth: both handlers' levels admit the record; a debug record may reach the file's filter alone.
- The two clean-up patterns of log messages are arbitrary functions, and the time of a record is a given string.
- Unit flags, YAML flags and everything else that `flag_util.py` wraps.
