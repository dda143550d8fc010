# kumade, modelled in Dafny

kumade is a make-like build tool for Python. A `Kumadefile.py` declares
configuration items and tasks. A task has a name, a procedure, bound
arguments, dependencies and an optional description. A file task is named
by the path it produces and runs only when that path is out of date. The
`kumade` command loads the Kumadefile, confirms the configuration given on
the command line, resolves the targets, and runs them dependencies first.
It runs them either sequentially or with a pool of worker processes fed
through queues, with a print server collecting their output.

This project models that core and proves what it promises:

- **Registry and builders.** The task manager (`Manager`), the three task
  builders (`Builder`), the decorators that configure them (`Decorator`) and
  the registration helpers (`Utility`).
- **Procedures.** What the procedures do to an abstract filesystem
  (`Procedures`, `Tasks`): the staleness check of file tasks, cleaning, and
  `mkdir`.
- **Sequential runner** (`Runner`, on the dependency graph of `Graph`). The
  depth-first search orders the tasks into an execution plan or reports a
  real cycle or missing name, and the queue then runs until the first
  failure.
- **Concurrent runner** (`DependencyCount`, `Dispatch`, `ConcurrentRunner`,
  `Printer`, `Queues`). The dependency counts, the dispatch loop under any
  completion order, the worker loop, the print server and client, and the
  shared queues.
- **Configuration and loading** (`Dicts`, `Configuration`, `Loader`). The
  configuration registry, its confirmation, and the set-once configuration.
  The loader searches upwards for the Kumadefile and loads at most one.
- **Command line** (`Cli`, `Sorting`). Splitting `name=value` items from
  targets, resolving targets, choosing the runner, and the listings printed
  by `-t` and `-T` with their sort order and column alignment.

Where the test suite and the code disagree, the model follows the code. The
worker test `tests/concurrent/test_task_worker.py:127-145` expects an
unknown target to raise inside the worker. `__execute_target`
(`kumade/concurrent/runner.py:141-165`) instead catches the error and
reports it in an `ExecutionResult`; `ConcurrentRunner.ExecuteTarget` does
the same.

## Model

| member | source | states |
|---|---|---|
| Tasks.RunTask | kumade/task.py:49-53 | running a task calls its procedure with the bound arguments, through the procedure loops |
| Manager.TaskManager.Register | kumade/manager.py:29-33 | a taken name is refused and nothing changes; otherwise the task is filed under its name, appended to the registration order, and the registry stays well keyed |
| Manager.TaskManager.SetDefaultTaskName | kumade/manager.py:25-27 | the default task name becomes the value; the tasks are unchanged |
| Manager.TaskManager.Find | kumade/manager.py:35-36 | finds a task exactly when the name is registered, and then it is the task filed under that name |
| Manager.TaskManager.GetAllTasks | kumade/manager.py:38-39 | every registered task exactly once, in registration order |
| Manager.TaskManager.GetTasksDescribedWithHelp | kumade/manager.py:41-42 | the registered tasks that have a description, each name once, in registration order: exactly the tasks at the described positions of the registration order |
| Manager.WithHelp | kumade/manager.py:41-42 | the filter keeps the tasks at exactly the positions that hold a described task, in their order, and nothing else |
| Manager.HelpPositions | kumade/manager.py:41-42 | the positions the filter keeps are increasing, each holds a described task, and every described task's position is among them |
| Manager.FilteredInOrder | kumade/manager.py:38-42 | filtering the tasks listed in registration order keeps each registered name at most once, at its registration position |
| Builder.TaskBuilder.Build | kumade/builder.py:41-48 | the task is named by the symbol, carries the collected arguments, dependencies and description, and runs the procedure unconditionally |
| Builder.TaskBuilder.SetArgs | kumade/builder.py:32-33 | replaces the arguments and keeps the other settings |
| Builder.TaskBuilder.SetDependencies | kumade/builder.py:35-36 | replaces the dependencies and keeps the other settings |
| Builder.TaskBuilder.SetHelp | kumade/builder.py:38-39 | sets the description and keeps the other settings |
| Builder.FileTaskBuilder.Build | kumade/builder.py:63-84 | the task is named by the path, has no description, and calls the procedure exactly when the file is out of date |
| Builder.CleanTaskBuilder.Build | kumade/builder.py:99-114 | the task takes the paths as its arguments and running it is cleaning them |
| Procedures.ProcedureWithFileCheck | kumade/builder.py:64-76 | the dependency loop with its early returns runs the inner procedure exactly when the target is missing, or is a file older than some existing file dependency; never when it is a directory |
| Procedures.CleanPaths | kumade/builder.py:100-106 | the loop over the paths unlinks files, removes directory trees and skips missing paths, as `Clean` states |
| Procedures.RunProcedure | kumade/builder.py:64-106 | running any procedure through the source's loops gives the effect `Apply` defines |
| Procedures.FileCheckCallsAtMostOnce | kumade/builder.py:64-76 | a gated user procedure is called at most once, with exactly the bound arguments; always when the target is missing, never when it is a directory |
| Procedures.NonFileDependenciesIgnored | kumade/builder.py:71-72 | symbolic names, missing paths and directories among the dependencies never make a file task stale |
| Procedures.DirectoryTimestampIgnored | kumade/builder.py:67-72 | changing a directory's modification time never makes a file task stale |
| Procedures.UpToDateTargetIsNotRebuilt | kumade/builder.py:70-76 | a target file no older than every file dependency is not rebuilt: the run has no effect |
| Procedures.DirectoryTaskRunsOnce | kumade/utility.py:33-44 | a `directory` task creates a missing directory once; a second run calls nothing |
| Procedures.CleanRemovesListedPaths | kumade/builder.py:100-106 | cleaning paths raises nothing, removes every listed path, and keeps every entry outside them unchanged |
| Runner.CreateQueue | kumade/runner.py:43-49 | the queue is an execution plan for the targets (each reachable task once, dependencies first) exactly when there is no reachable cycle or missing name; otherwise the error names a real cycle or missing name |
| Runner.CreateQueueRecursively | kumade/runner.py:51-78 | a finished name returns at once; re-entering an unfinished name reports a cycle through it; an unregistered symbol is not found and an unregistered path is a plain file; otherwise dependencies are queued first and the search invariant is kept |
| Runner.VisitDependencies | kumade/runner.py:74-75 | after the loop every dependency of the entered task is settled and the invariant holds |
| Runner.ExecuteRunsPrefix | kumade/runner.py:80-88 | the tasks run are a prefix of the queue, each run once; without failure the whole queue runs; a failing task is the last one run |
| Runner.ExecuteOutput | kumade/runner.py:82-83 | in verbose mode one "[Task] name" line is printed before each task runs, otherwise none |
| Runner.TaskRunner.ExecuteQueue | kumade/runner.py:80-88 | the loop over the queue stops at the first task that raises and behaves as `Execute` |
| Runner.TaskRunner.Run | kumade/runner.py:24-41 | a reachable cycle or missing name always gives the ordering error, which runs nothing and leaves the filesystem as it was; the only errors are that one and a task raising; otherwise the run is `Execute` over the queue of an execution plan of registered tasks, and it fails exactly when a task raises, that task being the last one run |
| Graph.PlanFromSearch | kumade/runner.py:43-78 | a search that finishes every target without error proves there is no reachable cycle or missing name, and its order is an execution plan |
| Graph.ErrorMeansCycleOrMissing | kumade/runner.py:58-70 | a reported error means a reachable cycle or a reachable missing name |
| Graph.CycleFromStack | kumade/runner.py:58-62 | meeting an entered but unfinished name closes a cycle through it |
| DependencyCount.CreateDependenciesCount | kumade/concurrent/runner.py:286-294 | without a reachable cycle or missing name the keys are an execution plan and each count is the number of registered entries in the task's dependency list; otherwise the error is real |
| DependencyCount.CreateDepsCountRecursively | kumade/concurrent/runner.py:296-327 | returns 1 for a registered task and 0 for a plain file; records counts that are right and keeps the search invariant |
| DependencyCount.CountDependencies | kumade/concurrent/runner.py:319-323 | the count is the number of registered entries in the dependency list, repeats included |
| Dispatch.SendReady | kumade/concurrent/runner.py:332-339 | the keys whose count is zero are sent in order and leave the counts |
| Dispatch.UpdateCounts | kumade/concurrent/runner.py:348-353 | every pending count whose dependency list holds the completed task is lowered by one, the rest are kept |
| Dispatch.DispatchTasks | kumade/concurrent/runner.py:329-353 | the dispatch loop computes exactly the round-by-round run from the initial counts under the source's decrement by membership, for any completion order |
| Dispatch.DispatchEnds | kumade/concurrent/runner.py:329-353 | under either decrement the loop completes every outstanding task, none of which raised, stops at the failure of a task that raised, or blocks; with the decrement by occurrences it never blocks |
| Dispatch.SentAfterDependencies | kumade/concurrent/runner.py:332-339 | under either decrement a task is sent only once all its registered dependencies have completed |
| Dispatch.EachTaskOnce | kumade/concurrent/runner.py:329-353 | under either decrement every task is sent at most once and completed at most once; only pending tasks are sent, and a task completes only after it was sent |
| Dispatch.RulesAgreeWithoutRepeats | kumade/concurrent/runner.py:348-353 | when no pending task's dependency list repeats a name, lowering by one per completion behaves exactly like lowering by occurrences |
| Dispatch.RepeatedDependencyBlocks | kumade/concurrent/runner.py:348-353 | as written, a task listing one dependency twice keeps the count 1 after that dependency completes, and the loop waits forever |
| Dispatch.RepeatedDependencyCompletes | kumade/concurrent/runner.py:329-353 | with the decrement by occurrences the same targets complete, the dependency first |
| ConcurrentRunner.ExecuteTargetAgreesWithSequential | kumade/concurrent/runner.py:141-165 | an unregistered path succeeds without effect; an unregistered symbol fails with "Target X is not found."; a registered task fails exactly when the sequential runner fails on it alone, with the same filesystem and verbose line |
| ConcurrentRunner.WorkUntilExit | kumade/concurrent/runner.py:114-127 | each request ahead of the first exit command gets exactly one result, for its target and in queue order; the exit command is put back behind the later requests |
| ConcurrentRunner.WorkWithoutExit | kumade/concurrent/runner.py:114-127 | without an exit command every request gets one result, in order, and the queue runs dry |
| ConcurrentRunner.WorkOnExits | kumade/concurrent/runner.py:118-125 | over exit commands only, a worker runs nothing and moves the first exit command to the back |
| ConcurrentRunner.TaskWorker.ProcessLoop | kumade/concurrent/runner.py:114-127 | the worker loop notifies the results and prints the lines that the worker function gives, and leaves the queue that function leaves |
| ConcurrentRunner.TaskWorker.ExecuteAndNotify | kumade/concurrent/runner.py:118-127 | executes the target, appends its result to the notify queue and its lines to the print queue |
| ConcurrentRunner.TaskWorker.Start | kumade/concurrent/runner.py:97-103 | afterwards the worker is running; a running worker is left as it is |
| ConcurrentRunner.TaskWorker.Stop | kumade/concurrent/runner.py:105-112 | a running worker gets one exit command and its loop runs until an exit command; a stopped worker is unchanged |
| ConcurrentRunner.DispatchFromCountsEnds | kumade/concurrent/runner.py:261-264 | dispatching as the source does from the computed counts fails only at a task of the plan that raised, completes exactly the plan, none of whose tasks raised, when it completes, and blocks only if a task of the plan lists a dependency twice |
| ConcurrentRunner.DispatchFromCountsUnblocked | kumade/concurrent/runner.py:296-353 | when no task of the plan lists a dependency twice, dispatching as the source does from the computed counts never blocks |
| ConcurrentRunner.DispatchFromCountsOrdered | kumade/concurrent/runner.py:261-264 | dispatching as the source does from the computed counts sends each task only after its registered dependencies completed |
| ConcurrentRunner.DispatchFromCountsOnce | kumade/concurrent/runner.py:261-264 | dispatching as the source does from the computed counts sends and completes each task of the plan at most once, and nothing else |
| ConcurrentRunner.ConcurrentTaskRunner.Create | kumade/concurrent/runner.py:173-218 | a print server, fresh empty queues and `n` unstarted workers named "Worker0", "Worker1", ..., all wired to them |
| ConcurrentRunner.ConcurrentTaskRunner.StartWorkers | kumade/concurrent/runner.py:268-271 | the print server and every worker are running |
| ConcurrentRunner.ConcurrentTaskRunner.StopWorkers | kumade/concurrent/runner.py:273-284 | the request queue is drained, every worker and the print server are stopped, and the print server prints everything queued for it; with no task in flight, each worker takes an exit command and puts it back and nothing new is notified |
| ConcurrentRunner.ConcurrentTaskRunner.Run | kumade/concurrent/runner.py:245-266 | an ordering error sends nothing; otherwise the dispatch is the run from the computed counts under the given completion order and failing tasks: tasks are sent after their dependencies, each at most once; it fails exactly at a task that raised, succeeds exactly when it completes the plan, in which case no task of the plan raised, and stalls only if a task of the plan lists a dependency twice; everything is stopped at the end |
| Queues.Queue.Put | kumade/concurrent/runner.py:338 | appends at the back |
| Queues.Queue.Get | kumade/concurrent/runner.py:278 | an empty queue gives nothing and stays empty; otherwise the oldest item is removed and returned |
| Printer.PrintClient.constructor | kumade/concurrent/printer.py:46-58 | the client name must not be empty |
| Printer.PrintClient.Print | kumade/concurrent/printer.py:60-75 | one command with the objects joined by the separator is queued, and it is never taken for the exit command |
| Printer.JoinConcat | kumade/concurrent/printer.py:73 | the separator stands exactly between neighbouring objects |
| Printer.ServeUntilExit | kumade/concurrent/printer.py:117-123 | commands ahead of the first exit are printed in order as "[client] message"; the exit is consumed and later commands stay queued |
| Printer.ServeWithoutExit | kumade/concurrent/printer.py:117-123 | without an exit every queued command is printed and the queue runs dry |
| Printer.PrintServer.ProcessLoop | kumade/concurrent/printer.py:117-123 | the server loop prints what the serve function gives and leaves its rest queued |
| Printer.PrintServer.Start | kumade/concurrent/printer.py:100-106 | afterwards the server is running, and output so far is kept |
| Printer.PrintServer.Stop | kumade/concurrent/printer.py:108-115 | a running server prints everything queued before its exit command; with only client commands queued it prints them all and empties the queue |
| Printer.PrintServer.CreateClient | kumade/concurrent/printer.py:125-139 | a fresh client with that name, writing to the server's own queue |
| Dicts.Dict.Insert | kumade/cli.py:53 | a new key goes to the end of the order, an existing key keeps its place and takes the new value; the dictionary stays well formed |
| Configuration.ConfigRegistry.AddItem | kumade/config.py:59-76 | a taken name is refused and nothing changes; otherwise the item is added at the end |
| Configuration.ConfigRegistry.GetAllItems | kumade/config.py:78-87 | every item once, in the order added |
| Configuration.ConfigRegistry.GetConfirmedValues | kumade/config.py:89-120 | refused exactly when a user key names no item (the first such key is reported), or a converter raises (the first such item in registry order is reported); otherwise every item in registry order gets its converted value or its default |
| Configuration.ConfigRegistry.FirstUnknown | kumade/config.py:108-110 | reports the first user key, in the user's order, that names no item, and nothing when all are known |
| Configuration.ConfigRegistry.ConfirmAll | kumade/config.py:112-120 | succeeds exactly when every conversion succeeds; a failure reports an item whose given value does not convert while every earlier item in registry order confirms |
| Configuration.Config.Get | kumade/config.py:177-198 | succeeds exactly for a confirmed name, with its value |
| Configuration.ConfigSlot.Set | kumade/config.py:149-166 | the first call stores the values; any later call is refused and changes nothing |
| Configuration.ConfigSlot.GetInstance | kumade/config.py:130-147 | refused exactly until the configuration is set |
| Loader.SearchKumadefile | kumade/loader.py:86-96 | succeeds exactly when some directory from the working directory up to the root has a Kumadefile, and gives the one in the nearest such directory |
| Loader.KumadefileLoader.Load | kumade/loader.py:46-84 | succeeds exactly when there is a Kumadefile to load and no different one was loaded; a search failure changes nothing; the first load records and executes the file and adds its directory to the search path; the same path again does nothing; a different path is refused |
| Decorator.PresentKeepsOrder | kumade/decorator.py:152 | `depend` keeps the given names in order and drops `None` |
| Decorator.OutermostWins | kumade/decorator.py:45-65 | the outermost wrapper of a kind decides that setting; `help(None)` changes nothing |
| Decorator.SetupTaskBuilder | kumade/decorator.py:45-65 | runs the steps innermost first and returns the innermost procedure |
| Decorator.SetupFileBuilder | kumade/decorator.py:45-65 | on a file builder a step that sets a description fails, exactly when the chain has one |
| Decorator.TaskDecorator | kumade/decorator.py:68-89 | registers one task running the innermost procedure with the configured settings and returns that procedure; a taken name is refused and nothing changes |
| Decorator.FileDecorator | kumade/decorator.py:92-117 | registers one gated file task keyed by the path; a chain that sets a description, or a taken path, registers nothing |
| Utility.SetDefault | kumade/utility.py:11-13 | the default task name becomes the name; the tasks are unchanged |
| Utility.Clean | kumade/utility.py:16-30 | registers a clean task over the paths, setting dependencies and description only when given; a taken name is refused and the registry and its order are unchanged |
| Utility.Directory | kumade/utility.py:33-44 | registers a gated `mkdir` file task whose only argument is the path; a taken path is refused and the registry and its order are unchanged |
| Sorting.SortByCorrect | kumade/cli.py:243 | the sorted tasks are in key order and are the same tasks, each as often |
| Sorting.KeyLeTransitive | kumade/cli.py:234-241 | comparing (priority, name) keys is transitive |
| Sorting.KeyLeTotal | kumade/cli.py:234-241 | any two (priority, name) keys are comparable |
| Cli.SplitJoinRoundTrip | kumade/cli.py:52 | splitting at "=" and joining with "=" gives the item back; no part holds "="; there are two or more parts exactly when the item has "=" |
| Cli.SeparateConfigAndTargets | kumade/cli.py:47-55 | the separation loop computes `Separate` |
| Cli.SeparateTargets | kumade/cli.py:47-55 | separation fails exactly when an item has more than one "="; otherwise the targets are the items without "=", in order |
| Cli.SeparateConfigKeys | kumade/cli.py:50-53 | the configuration holds exactly the names the entries give, each once |
| Cli.SeparateConfigValues | kumade/cli.py:50-53 | each configuration name has the value of the last item naming it |
| Cli.ResolveTargets | kumade/cli.py:179-194 | no target and no default task is refused; otherwise every target resolves as a symbol first, then as its absolute path, and the first that does not is reported |
| Cli.ChooseRunner | kumade/cli.py:196-201 | sequential with the verbose flag when no worker count is given or it is below 2; concurrent with that count otherwise |
| Cli.ConfigListingSorted | kumade/cli.py:215-221 | every configuration item is listed once, in name order |
| Cli.ConfigListingAligned | kumade/cli.py:212-221 | every configuration line has "#" in the same column, two past the longest name |
| Cli.ConfigWidthTight | kumade/cli.py:212-213 | the longest name exactly fills the name column |
| Cli.TaskListingOrdered | kumade/cli.py:234-243 | described tasks come first, then other symbolic names, then paths, each group in name order |
| Cli.TaskListingAligned | kumade/cli.py:245-248 | every described task's line has "#" in the same column |
| Cli.TaskListingCorrected | kumade/cli.py:231-232 | the corrected listing agrees with the code as written whenever some listed task is described; only then does the code succeed |
| Cli.UndescribedListingFails | kumade/cli.py:231-232 | as written, listing no described task fails |
| Cli.TaskWidth | kumade/cli.py:231-232 | the column is at least two past every described task's name |
| Cli.CLI.Create | kumade/cli.py:21-72 | a missing Kumadefile is refused; the flags are combined as `-t or -T`; the items are separated as `Separate` gives |
| Cli.CLI.Run | kumade/cli.py:165-232 | fails when the Kumadefile cannot be loaded; with a listing flag it gives the configuration and task listings, and fails exactly when the task listing as written does; otherwise it succeeds exactly when the configuration confirms, is not yet set and every requested target resolves, and then the configuration holds exactly the confirmed values, the targets are the resolved names and the runner is chosen from the job count |

## Left out

- Processes, `join` and blocking. A worker's or the print server's process is modelled by running its loop over the shared queue when it is stopped. A blocking `get` on an empty queue returns `None` (the worker or server loop then reports that it did not exit). Where the dispatch loop would wait forever, it returns `Blocked`.
- Completion order and failures. The order in which workers finish is the parameter `pick`. The set of tasks that raise during the concurrent run is `failing`. `ConcurrentRunner.ConcurrentTaskRunner.Run` does not execute procedures against the filesystem: the worker's effect on the filesystem is stated separately by `ConcurrentRunner.ExecuteTargetAgreesWithSequential`.
- `__setup_global_objects` (`kumade/concurrent/runner.py:129-139`) re-loads the Kumadefile in each worker. The model's worker shares the parent's task manager.
- The `with self.__print_client` block (`kumade/concurrent/runner.py:118`) swaps `builtins.print` for the client's `print` and restores it afterwards (`PrintClient.__enter__` and `__exit__`, `kumade/concurrent/printer.py:77-82`). The model's worker prints through its client directly, which is what that block arranges.
- The chained exception objects: an error is its message.
- ConcurrentRunner.ExecuteTarget: the traceback that `print(traceback.format_exc())` prints for an unknown or raising target (`kumade/concurrent/runner.py:162-164`) is not modelled: in the source it is one more print command on the print queue, after the verbose line; its text depends on the Python interpreter's stack.
- ConcurrentRunner.TaskWorker.ExecuteAndNotify: its print-queue contract holds the verbose line only, not the traceback print command a failed target adds.
- ConcurrentRunner.TaskWorker.ProcessLoop: its print-queue contract likewise leaves out one traceback print command per failed target.
- ConcurrentRunner.ConcurrentTaskRunner.StopWorkers: a task a worker already took when the stop begins is not modelled. In the source, `join` (`kumade/concurrent/runner.py:110-111`) lets that task finish, put its result on the notify queue and print through the client; the model's workers have no task in flight at that point, so its contract says nothing new is notified.
- The Kumadefile's own code. The loader records which file was loaded and which directory was added to the module search path. Executing the file with `importlib` is left out.
- `argparse`, `int(jobs)` and `--version`: `Cli.CLI.Create` starts from the parsed options. Standard output is the sequence of lines returned.
- Relative paths. Paths are absolute and normalised; `Path(target).absolute()` is the parameter `absolute`. Modification times are integers.
- The singletons (`get_instance`) are explicit objects passed to the members that use them.
- `str()` of arbitrary objects is a given string (`Value.Other`, `Setting`). `Config.values` returns a copy; the model's values are immutable.
- `__getattr__` and `__getitem__` of `Config` are aliases of `get` and are modelled by `Configuration.Config.Get`.
- A converter is identified by a number, and its behaviour is the parameter `convert`.
- Cli.CLI.Run: when a converter raises, it reports a fixed message naming the item, in place of the converter's own exception.
- Cli.CLI.Run: when the task listing fails as written, the configuration listing the source has already printed is not part of the result; the result is the failure alone.
- ConcurrentRunner.ConcurrentTaskRunner.Run: where the source waits forever for a completion, the run ends with the outcome `Blocked` and the error `Stalled`. Which runs with a repeated dependency stall is not stated beyond the example `Dispatch.RepeatedDependencyBlocks`.
- Exceptions raised inside user procedures are the `raised` flag of an effect.
- A user task whose name is the empty string would be taken for the exit command by the workers. The model keeps this behaviour and proves nothing about such a task.
- The command line creates the concurrent runner without the verbose flag (`kumade/cli.py:200`), so the concurrent choice of `Cli.ChooseRunner` carries none.

## Findings

| source | as written | input that shows it | evidently intended | confidence | as-written member | corrected member |
|---|---|---|---|---|---|---|
| kumade/concurrent/runner.py:348-353 | a completed task lowers a dependent's count by one when it occurs in the dependency list, but the count added one per occurrence | task `a` with `depend(b, b)`, `b` without dependencies, target `a`: after `b` completes the count of `a` is 1, no task is in flight, and the dispatch loop waits forever | lower the count by the number of occurrences, so the loop completes `a` | not executed | Dispatch.RepeatedDependencyBlocks | Dispatch.DispatchEnds |
| kumade/cli.py:231-232 | the name column width is `max` over the described tasks only | `kumade -t` with a Kumadefile whose tasks have no description, or `kumade -T` with undescribed tasks only: `max()` of an empty list raises `ValueError` | with no described task, list the tasks anyway, using width 2 | not executed | Cli.UndescribedListingFails | Cli.TaskListing |

The operations themselves follow the code as written: `Dispatch.UpdateCounts`,
`Dispatch.DispatchTasks` and `ConcurrentRunner.ConcurrentTaskRunner.Run`
lower a count by one per completion, and `Cli.CLI.Run` lists tasks with the
width as written. The corrected definitions are proved beside them, and
`Dispatch.RulesAgreeWithoutRepeats` and `Cli.TaskListingCorrected` show
where the two agree.
