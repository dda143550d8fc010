/**
 * The worker side and the top level of the concurrent runner
 * (kumade/concurrent/runner.py): task commands and execution results, the
 * worker that runs requested tasks and notifies their results, and the
 * runner that orders the targets, starts the workers, dispatches, and stops
 * everything at the end. Scheduling is given by the `Dispatch` model; a run
 * of one task by a worker is `ExecuteTarget`.
 */
module ConcurrentRunner {
  import opened Wrappers
  import opened Names
  import opened Procedures
  import opened Tasks
  import opened Manager
  import opened Graph
  import opened Runner
  import opened DependencyCount
  import opened Dispatch
  import opened Queues
  import opened Printer

  /** A request to run `target`; the empty symbolic name marks the exit command. */
  datatype TaskCommand = TaskCommand(target: TaskName)
  {
    predicate IsExit()
    {
      target == Symbol("")
    }
  }

  /** `TaskCommand.exit()`. */
  function ExitTask(): TaskCommand
  {
    TaskCommand(Symbol(""))
  }

  /** A worker's notification: the target and, when it failed, the error message. */
  datatype ExecutionResult = ExecutionResult(target: TaskName, error: Option<string>)

  /** One execution by a worker: its result, the filesystem after it, and the lines it printed. */
  datatype Executed = Executed(result: ExecutionResult, fs: FileSystem, printed: seq<string>)

  /** The worker's `__execute_target`. */
  function ExecuteTarget(tasks: map<TaskName, Task>, target: TaskName, fs: FileSystem, env: UserBehaviour, verbose: bool): Executed
  {
    if target !in tasks then
      if target.PathName? then Executed(ExecutionResult(target, None), fs, [])
      else Executed(ExecutionResult(target, Some("Target " + NameToString(target) + " is not found.")), fs, [])
    else
      var task := tasks[target];
      var line := if verbose then [TaskLine(task.name)] else [];
      var e := task.Run(fs, env);
      var error := if e.raised then Some("Target " + NameToString(target) + " causes an error.") else None;
      Executed(ExecutionResult(target, error), e.fs, line)
  }

  /**
   * A worker reports on the target it was asked for. An unregistered path
   * succeeds without effect and an unregistered symbol fails without
   * effect; a registered task fails exactly when the sequential runner,
   * given that task alone, reports it failed, and leaves the same
   * filesystem and verbose line.
   */
  lemma ExecuteTargetAgreesWithSequential(tasks: map<TaskName, Task>, target: TaskName, fs: FileSystem,
                                          env: UserBehaviour, verbose: bool)
    ensures var x := ExecuteTarget(tasks, target, fs, env, verbose);
      && x.result.target == target
      && (target !in tasks ==> x.fs == fs && x.printed == [] && (x.result.error.None? <==> target.PathName?))
      && (target in tasks ==>
            var s := Execute([tasks[target]], fs, env, verbose);
            x.fs == s.fs && x.printed == s.output && (x.result.error.None? <==> s.failed.None?))
  {
    if target in tasks {
      var s := Execute([tasks[target]], fs, env, verbose);
      assert [tasks[target]][1..] == [];
    }
  }

  predicate NoExitTask(cs: seq<TaskCommand>)
  {
    forall i :: 0 <= i < |cs| ==> !cs[i].IsExit()
  }

  /** What a worker's loop does with its request queue. */
  datatype Worked = Worked(results: seq<ExecutionResult>, printed: seq<string>, fs: FileSystem,
                           rest: seq<TaskCommand>, exited: bool)

  /**
   * The worker loop over the queued requests: each request is executed and
   * its result notified; at the first exit command the command is put back
   * at the end of the queue for the other workers and the loop ends.
   */
  function Work(tasks: map<TaskName, Task>, cs: seq<TaskCommand>, fs: FileSystem, env: UserBehaviour, verbose: bool): Worked
    decreases |cs|
  {
    if cs == [] then Worked([], [], fs, [], false)
    else if cs[0].IsExit() then Worked([], [], fs, cs[1..] + [cs[0]], true)
    else
      var x := ExecuteTarget(tasks, cs[0].target, fs, env, verbose);
      var r := Work(tasks, cs[1..], x.fs, env, verbose);
      Worked([x.result] + r.results, x.printed + r.printed, r.fs, r.rest, r.exited)
  }

  /**
   * Every request ahead of the first exit command gets exactly one result,
   * for its own target and in queue order; the exit command ends up behind
   * the requests that followed it.
   */
  lemma {:induction false} WorkUntilExit(tasks: map<TaskName, Task>, before: seq<TaskCommand>, exit: TaskCommand,
                                         after: seq<TaskCommand>, fs: FileSystem, env: UserBehaviour, verbose: bool)
    requires NoExitTask(before) && exit.IsExit()
    ensures var w := Work(tasks, before + [exit] + after, fs, env, verbose);
      && |w.results| == |before|
      && (forall i :: 0 <= i < |before| ==> w.results[i].target == before[i].target)
      && w.rest == after + [exit] && w.exited
    decreases |before|
  {
    if before == [] {
      assert before + [exit] + after == [exit] + after;
    } else {
      var x := ExecuteTarget(tasks, before[0].target, fs, env, verbose);
      assert (before + [exit] + after)[1..] == before[1..] + [exit] + after;
      WorkUntilExit(tasks, before[1..], exit, after, x.fs, env, verbose);
    }
  }

  /** Without an exit command every request gets exactly one result, in order, and the queue runs dry. */
  lemma {:induction false} WorkWithoutExit(tasks: map<TaskName, Task>, cs: seq<TaskCommand>, fs: FileSystem,
                                           env: UserBehaviour, verbose: bool)
    requires NoExitTask(cs)
    ensures var w := Work(tasks, cs, fs, env, verbose);
      && |w.results| == |cs|
      && (forall i :: 0 <= i < |cs| ==> w.results[i].target == cs[i].target)
      && w.rest == [] && !w.exited
    decreases |cs|
  {
    if cs != [] {
      var x := ExecuteTarget(tasks, cs[0].target, fs, env, verbose);
      WorkWithoutExit(tasks, cs[1..], x.fs, env, verbose);
    }
  }

  /** The print commands a client sends for `lines`, one `print` per line. */
  function ClientCommands(name: string, lines: seq<string>): (cs: seq<PrintCommand>)
    ensures |cs| == |lines|
    ensures forall i :: 0 <= i < |lines| ==> cs[i] == PrintCommand(name, lines[i])
  {
    seq(|lines|, i requires 0 <= i < |lines| => PrintCommand(name, lines[i]))
  }

  /** `results`, `printed` produced so far, followed by what the loop `w` does next. */
  function Then(results: seq<ExecutionResult>, printed: seq<string>, w: Worked): Worked
  {
    Worked(results + w.results, printed + w.printed, w.fs, w.rest, w.exited)
  }

  /** One request served: its result and lines come first, then the rest of the loop. */
  lemma WorkStep(tasks: map<TaskName, Task>, cs: seq<TaskCommand>, fs: FileSystem, env: UserBehaviour, verbose: bool)
    requires cs != [] && !cs[0].IsExit()
    ensures var x := ExecuteTarget(tasks, cs[0].target, fs, env, verbose);
      Work(tasks, cs, fs, env, verbose) == Then([x.result], x.printed, Work(tasks, cs[1..], x.fs, env, verbose))
  {
  }

  lemma ClientCommandsAppend(name: string, a: seq<string>, b: seq<string>)
    ensures ClientCommands(name, a + b) == ClientCommands(name, a) + ClientCommands(name, b)
  {
  }

  lemma ThenTwice(results: seq<ExecutionResult>, printed: seq<string>, results': seq<ExecutionResult>,
                  printed': seq<string>, w: Worked)
    ensures Then(results, printed, Then(results', printed', w)) == Then(results + results', printed + printed', w)
  {
    assert results + (results' + w.results) == results + results' + w.results;
    assert printed + (printed' + w.printed) == printed + printed' + w.printed;
  }

  class TaskWorker {
    const manager: TaskManager
    const client: PrintClient
    const requestQueue: Queue<TaskCommand>
    const notifyQueue: Queue<ExecutionResult>
    const verbose: bool
    /** Whether the worker process exists. */
    var running: bool

    constructor(manager: TaskManager, client: PrintClient, requestQueue: Queue<TaskCommand>,
                notifyQueue: Queue<ExecutionResult>, verbose: bool)
      ensures this.manager == manager && this.client == client && this.verbose == verbose
      ensures this.requestQueue == requestQueue && this.notifyQueue == notifyQueue
      ensures !running
    {
      this.manager := manager;
      this.client := client;
      this.requestQueue := requestQueue;
      this.notifyQueue := notifyQueue;
      this.verbose := verbose;
      running := false;
    }

    /** `start`: a worker already running is left as it is. */
    method Start()
      modifies this
      ensures running
    {
      if running {
        return;
      }
      running := true;
    }

    /**
     * `stop`: a running worker gets one exit command, and the join waits for
     * its loop to reach an exit command. A worker not running is left as it is.
     */
    method Stop(fs: FileSystem, env: UserBehaviour) returns (fs': FileSystem)
      requires client.Valid()
      modifies this, requestQueue, notifyQueue, client.queue
      ensures !running
      ensures !old(running) ==>
        && fs' == fs && requestQueue.items == old(requestQueue.items)
        && notifyQueue.items == old(notifyQueue.items) && client.queue.items == old(client.queue.items)
      ensures old(running) ==>
        var w := Work(manager.tasks, old(requestQueue.items) + [ExitTask()], fs, env, verbose);
        && requestQueue.items == w.rest && fs' == w.fs
        && notifyQueue.items == old(notifyQueue.items) + w.results
        && client.queue.items == old(client.queue.items) + ClientCommands(client.name, w.printed)
    {
      if !running {
        return fs;
      }
      requestQueue.Put(ExitTask());
      var exited;
      fs', exited := ProcessLoop(fs, env);
      running := false;
    }

    /**
     * `__call__`, the worker process's loop: runs each requested target,
     * prints through the client and notifies the result; at an exit command
     * it puts the command back and returns. Reaching an empty queue it
     * returns `false`, where the process would wait for more.
     */
    method ProcessLoop(fs: FileSystem, env: UserBehaviour) returns (fs': FileSystem, exited: bool)
      requires client.Valid()
      modifies requestQueue, notifyQueue, client.queue
      ensures var w := Work(manager.tasks, old(requestQueue.items), fs, env, verbose);
        && requestQueue.items == w.rest && fs' == w.fs && exited == w.exited
        && notifyQueue.items == old(notifyQueue.items) + w.results
        && client.queue.items == old(client.queue.items) + ClientCommands(client.name, w.printed)
    {
      var tasks := manager.tasks;
      ghost var start := requestQueue.items;
      ghost var results: seq<ExecutionResult> := [];
      ghost var printed: seq<string> := [];
      fs' := fs;
      while true
        invariant Then(results, printed, Work(tasks, requestQueue.items, fs', env, verbose)) == Work(tasks, start, fs, env, verbose)
        invariant notifyQueue.items == old(notifyQueue.items) + results
        invariant client.queue.items == old(client.queue.items) + ClientCommands(client.name, printed)
        decreases |requestQueue.items|
      {
        ghost var q := requestQueue.items;
        var command := requestQueue.Get();
        if command.None? {
          assert results + [] == results && printed + [] == printed;
          return fs', false;
        }
        if command.value.IsExit() {
          requestQueue.Put(command.value);
          assert Work(tasks, q, fs', env, verbose) == Worked([], [], fs', requestQueue.items, true);
          assert results + [] == results && printed + [] == printed;
          return fs', true;
        }
        var x := ExecuteAndNotify(tasks, command.value.target, fs', env);
        WorkStep(tasks, q, fs', env, verbose);
        ThenTwice(results, printed, [x.result], x.printed, Work(tasks, requestQueue.items, x.fs, env, verbose));
        ClientCommandsAppend(client.name, printed, x.printed);
        fs' := x.fs;
        results, printed := results + [x.result], printed + x.printed;
      }
    }

    /** `__execute_target` followed by the notification of its result. */
    method ExecuteAndNotify(tasks: map<TaskName, Task>, target: TaskName, fs: FileSystem, env: UserBehaviour)
      returns (x: Executed)
      requires client.Valid()
      modifies notifyQueue, client.queue
      ensures x == ExecuteTarget(tasks, target, fs, env, verbose)
      ensures notifyQueue.items == old(notifyQueue.items) + [x.result]
      ensures client.queue.items == old(client.queue.items) + ClientCommands(client.name, x.printed)
    {
      x := ExecuteTarget(tasks, target, fs, env, verbose);
      PrintLines(x.printed);
      notifyQueue.Put(x.result);
    }

    /** `print(line)` through the client, for each line. */
    method PrintLines(lines: seq<string>)
      requires client.Valid()
      modifies client.queue
      ensures client.queue.items == old(client.queue.items) + ClientCommands(client.name, lines)
    {
      for i := 0 to |lines|
        invariant client.queue.items == old(client.queue.items) + ClientCommands(client.name, lines[..i])
      {
        client.Print([lines[i]]);
        assert ClientCommands(client.name, lines[..i + 1]) == ClientCommands(client.name, lines[..i]) + [PrintCommand(client.name, lines[i])];
      }
      assert lines[..|lines|] == lines;
    }
  }

  /** The decimal digits of `n`, as `str(n)` writes them. */
  function Decimal(n: nat): (s: string)
    ensures |s| > 0
    decreases n
  {
    if n < 10 then ["0123456789"[n]] else Decimal(n / 10) + ["0123456789"[n % 10]]
  }

  /** Requests that are all exit commands. */
  predicate OnlyExits(cs: seq<TaskCommand>)
  {
    forall i :: 0 <= i < |cs| ==> cs[i].IsExit()
  }

  /** A worker's loop over exit commands only runs nothing, and moves the first exit command to the back. */
  lemma WorkOnExits(tasks: map<TaskName, Task>, cs: seq<TaskCommand>, fs: FileSystem, env: UserBehaviour, verbose: bool)
    requires cs != [] && OnlyExits(cs)
    ensures var w := Work(tasks, cs, fs, env, verbose);
      w == Worked([], [], fs, w.rest, true) && OnlyExits(w.rest) && |w.rest| == |cs|
  {
    assert cs[0].IsExit();
  }

  /**
   * Dispatching, as the source does, from the counts
   * `__create_dependencies_count` computes fails only at a task that
   * raised, completes exactly the plan when it completes, and never stalls
   * unless a task of the plan lists some dependency twice.
   */
  lemma DispatchFromCountsEnds(reg: Registry, roots: set<TaskName>, dc: DepsCount, failing: set<TaskName>, pick: nat -> nat)
    requires CountsRight(reg, dc) && IsExecutionPlan(reg, roots, dc.keys)
    ensures var d := Run(reg, Initial(dc), failing, pick, ByMembership, 0);
      && (NoRepeats(reg, dc.keys) ==> d.outcome != Blocked)
      && (d.outcome.Failed? ==> d.outcome.target in failing && d.outcome.target in dc.keys)
      && (d.outcome == AllCompleted ==> CompletedIn(d.trace) == (set n | n in dc.keys))
      && (d.outcome == AllCompleted ==> forall n :: n in dc.keys ==> n !in failing)
  {
    InitialInv(reg, roots, dc, ByMembership);
    DispatchEnds(reg, dc.keys, Initial(dc), {}, failing, pick, ByMembership, 0);
    OutstandingInitially(dc);
    var d := Run(reg, Initial(dc), failing, pick, ByMembership, 0);
    if d.outcome == AllCompleted {
      CompletedNotFailing(d.trace, dc.keys, failing);
    }
    if NoRepeats(reg, dc.keys) {
      DispatchFromCountsUnblocked(reg, roots, dc, failing, pick);
    }
  }

  lemma OutstandingInitially(dc: DepsCount)
    ensures Outstanding(Initial(dc)) == (set n | n in dc.keys)
  {
    assert (set n: TaskName | n in Initial(dc).inFlight) == {};
  }

  lemma CompletedNotFailing(t: seq<Event>, keys: seq<TaskName>, failing: set<TaskName>)
    requires CompletedIn(t) == (set n | n in keys) && CompletedIn(t) * failing == {}
    ensures forall n :: n in keys ==> n !in failing
  {
    forall n | n in keys
      ensures n !in failing
    {
      assert n in (set m | m in keys);
      assert n !in CompletedIn(t) * failing;
    }
  }

  /** Without repeated dependencies, dispatching from those counts never blocks. */
  lemma DispatchFromCountsUnblocked(reg: Registry, roots: set<TaskName>, dc: DepsCount, failing: set<TaskName>, pick: nat -> nat)
    requires CountsRight(reg, dc) && IsExecutionPlan(reg, roots, dc.keys) && NoRepeats(reg, dc.keys)
    ensures Run(reg, Initial(dc), failing, pick, ByMembership, 0).outcome != Blocked
  {
    RulesAgreeWithoutRepeats(reg, Initial(dc), failing, pick, 0);
    InitialInv(reg, roots, dc, ByOccurrences);
    DispatchEnds(reg, dc.keys, Initial(dc), {}, failing, pick, ByOccurrences, 0);
  }

  /** Dispatching from those counts sends a task only after all its registered dependencies completed. */
  lemma DispatchFromCountsOrdered(reg: Registry, roots: set<TaskName>, dc: DepsCount, failing: set<TaskName>, pick: nat -> nat)
    requires CountsRight(reg, dc) && IsExecutionPlan(reg, roots, dc.keys)
    ensures SentAfterDeps(reg, {}, Run(reg, Initial(dc), failing, pick, ByMembership, 0).trace)
  {
    InitialInv(reg, roots, dc, ByMembership);
    SentAfterDependencies(reg, dc.keys, Initial(dc), {}, failing, pick, ByMembership, 0);
  }

  /** Dispatching from those counts sends and completes each task of the plan at most once, and no other task. */
  lemma DispatchFromCountsOnce(reg: Registry, roots: set<TaskName>, dc: DepsCount, failing: set<TaskName>, pick: nat -> nat)
    requires CountsRight(reg, dc) && IsExecutionPlan(reg, roots, dc.keys)
    ensures OnceFrom((set n | n in dc.keys), {}, Run(reg, Initial(dc), failing, pick, ByMembership, 0).trace)
  {
    InitialInv(reg, roots, dc, ByMembership);
    EachTaskOnce(reg, dc.keys, Initial(dc), {}, failing, pick, ByMembership, 0);
    assert (set n: TaskName | n in Initial(dc).inFlight) == {};
  }

  class ConcurrentTaskRunner {
    const printServer: PrintServer
    const workers: seq<TaskWorker>
    const requestQueue: Queue<TaskCommand>
    const notifyQueue: Queue<ExecutionResult>
    const manager: TaskManager

    /**
     * Every worker takes requests from the runner's request queue, notifies
     * on its notify queue, prints through a client of the runner's print
     * server and looks tasks up in the runner's task manager.
     */
    ghost predicate Valid()
      reads manager
    {
      && manager.Valid()
      && forall w :: w in workers ==>
           && w.requestQueue == requestQueue && w.notifyQueue == notifyQueue
           && w.client.queue == printServer.queue && w.client.Valid() && w.manager == manager
    }

    constructor(printServer: PrintServer, workers: seq<TaskWorker>, requestQueue: Queue<TaskCommand>,
                notifyQueue: Queue<ExecutionResult>, manager: TaskManager)
      ensures this.printServer == printServer && this.workers == workers && this.manager == manager
      ensures this.requestQueue == requestQueue && this.notifyQueue == notifyQueue
    {
      this.printServer := printServer;
      this.workers := workers;
      this.requestQueue := requestQueue;
      this.notifyQueue := notifyQueue;
      this.manager := manager;
    }

    /**
     * `create`: a print server, fresh empty queues, and `nWorkers` workers
     * named "Worker0", "Worker1", ..., none of them started.
     */
    static method Create(nWorkers: nat, verbose: bool, manager: TaskManager) returns (r: ConcurrentTaskRunner)
      requires manager.Valid()
      ensures fresh(r) && fresh(r.printServer) && fresh(r.printServer.queue)
      ensures fresh(r.requestQueue) && fresh(r.notifyQueue)
      ensures r.Valid() && r.manager == manager && |r.workers| == nWorkers
      ensures r.requestQueue.items == [] && r.notifyQueue.items == [] && r.printServer.queue.items == []
      ensures !r.printServer.running && r.printServer.output == []
      ensures forall i :: 0 <= i < nWorkers ==>
        && fresh(r.workers[i]) && !r.workers[i].running && r.workers[i].verbose == verbose
        && r.workers[i].client.name == "Worker" + Decimal(i)
    {
      var printQueue := new Queue<PrintCommand>();
      var printServer := new PrintServer(printQueue);
      var requestQueue := new Queue<TaskCommand>();
      var notifyQueue := new Queue<ExecutionResult>();
      var workers: seq<TaskWorker> := [];
      for i := 0 to nWorkers
        invariant |workers| == i
        invariant printQueue.items == [] && requestQueue.items == [] && notifyQueue.items == []
        invariant !printServer.running && printServer.output == []
        invariant forall j :: 0 <= j < i ==>
          && fresh(workers[j]) && !workers[j].running && workers[j].verbose == verbose
          && workers[j].client.name == "Worker" + Decimal(j)
          && workers[j].requestQueue == requestQueue && workers[j].notifyQueue == notifyQueue
          && workers[j].client.queue == printQueue && workers[j].client.Valid() && workers[j].manager == manager
      {
        var client := printServer.CreateClient("Worker" + Decimal(i));
        var worker := new TaskWorker(manager, client, requestQueue, notifyQueue, verbose);
        workers := workers + [worker];
      }
      r := new ConcurrentTaskRunner(printServer, workers, requestQueue, notifyQueue, manager);
    }

    /** `__start_workers`: the print server, then every worker. */
    method StartWorkers()
      modifies printServer, set w | w in workers
      ensures printServer.running && printServer.output == old(printServer.output)
      ensures forall w :: w in workers ==> w.running
    {
      printServer.Start();
      for i := 0 to |workers|
        invariant printServer.running && printServer.output == old(printServer.output)
        invariant forall j :: 0 <= j < i ==> workers[j].running
      {
        workers[i].Start();
      }
    }

    /**
     * `__stop_workers`: empties the request queue, stops every worker, then
     * the print server. The model's workers hold no task in flight when they
     * are stopped, so each running worker takes an exit command and puts it
     * back, nothing new is notified, and the print server prints what was
     * queued for it.
     */
    method StopWorkers(fs: FileSystem, env: UserBehaviour)
      requires Valid()
      modifies printServer, printServer.queue, requestQueue, notifyQueue, set w | w in workers
      ensures OnlyExits(requestQueue.items)
      ensures notifyQueue.items == old(notifyQueue.items)
      ensures forall w :: w in workers ==> !w.running
      ensures !printServer.running
      ensures !old(printServer.running) ==> printServer.output == old(printServer.output)
      ensures old(printServer.running) ==>
        printServer.output == old(printServer.output) + Serve(old(printServer.queue.items) + [ExitCommand()]).lines
    {
      while true
        invariant notifyQueue.items == old(notifyQueue.items)
        invariant printServer.queue.items == old(printServer.queue.items)
        invariant printServer.running == old(printServer.running) && printServer.output == old(printServer.output)
        decreases |requestQueue.items|
      {
        var c := requestQueue.Get();
        if c.None? {
          break;
        }
      }
      for i := 0 to |workers|
        invariant OnlyExits(requestQueue.items)
        invariant notifyQueue.items == old(notifyQueue.items)
        invariant printServer.queue.items == old(printServer.queue.items)
        invariant printServer.running == old(printServer.running) && printServer.output == old(printServer.output)
        invariant forall j :: 0 <= j < i ==> !workers[j].running
      {
        var w := workers[i];
        if w.running {
          WorkOnExits(manager.tasks, requestQueue.items + [ExitTask()], fs, env, w.verbose);
        }
        var fs' := w.Stop(fs, env);
      }
      printServer.Stop();
    }

    /**
     * `run`: when the targets cannot be ordered no worker starts and no task
     * is sent. Otherwise the dispatch is `Run` over the dependency counts,
     * whatever order the workers finish in (`pick`) and whichever tasks
     * raise (`failing`): a task is sent only after all its registered
     * dependencies completed, each task of the execution plan is sent and
     * completed at most once, the run fails at a task that raised, and a run
     * without failure completes exactly the plan, none of whose tasks
     * raised. The dispatch stalls, where the source waits forever, only if a
     * task of the plan lists some dependency twice. Every worker and the
     * print server are stopped at the end either way.
     */
    method Run(targets: seq<TaskName>, fs: FileSystem, env: UserBehaviour, failing: set<TaskName>, pick: nat -> nat)
      returns (d: Dispatched, err: Option<RunError>)
      requires Valid()
      modifies printServer, printServer.queue, requestQueue, notifyQueue, set w | w in workers
      ensures err.Some? && err.value.Unresolvable? ==>
        ErrorSound(manager.tasks, Roots(targets), err.value.cause) && d.trace == []
      ensures (!HasReachableCycle(manager.tasks, Roots(targets)) && !HasReachableMissing(manager.tasks, Roots(targets)))
        <==> !(err.Some? && err.value.Unresolvable?)
      ensures !(err.Some? && err.value.Unresolvable?) ==>
        exists dc ::
          && CountsRight(manager.tasks, dc) && IsExecutionPlan(manager.tasks, Roots(targets), dc.keys)
          && d == Dispatch.Run(manager.tasks, Initial(dc), failing, pick, ByMembership, 0)
          && SentAfterDeps(manager.tasks, {}, d.trace)
          && OnceFrom((set n | n in dc.keys), {}, d.trace)
          && (NoRepeats(manager.tasks, dc.keys) ==> d.outcome != Blocked)
          && (d.outcome == AllCompleted ==> CompletedIn(d.trace) == (set n | n in dc.keys))
          && (err.None? ==> forall n :: n in dc.keys ==> n !in failing)
      ensures err.None? <==> d.outcome == AllCompleted
      ensures err.None? ==> CompletedIn(d.trace) * failing == {}
      ensures err.Some? && err.value.ExecutionFailed? <==> d.outcome.Failed?
      ensures err.Some? && err.value.ExecutionFailed? ==>
        err.value.target in failing && d.outcome == Failed(err.value.target)
      ensures err.Some? && err.value.Stalled? ==> d.outcome == Blocked
      ensures !printServer.running && forall w :: w in workers ==> !w.running
    {
      var reg := manager.tasks;
      var dc, e := CreateDependenciesCount(reg, targets);
      if e.Some? {
        StopWorkers(fs, env);
        return Dispatched(Blocked, []), Some(Unresolvable(e.value));
      }
      StartWorkers();
      d := DispatchTasks(reg, dc, failing, pick);
      DispatchFromCountsEnds(reg, Roots(targets), dc, failing, pick);
      DispatchFromCountsOrdered(reg, Roots(targets), dc, failing, pick);
      DispatchFromCountsOnce(reg, Roots(targets), dc, failing, pick);
      StopWorkers(fs, env);
      match d.outcome
      case AllCompleted => err := None;
      case Failed(target) => err := Some(ExecutionFailed(target));
      case Blocked => err := Some(Stalled);
    }
  }
}
