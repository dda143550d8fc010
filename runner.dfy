/**
 * The sequential task runner (kumade/runner.py): a depth-first search from
 * the targets builds the queue of tasks to run, dependencies first; then the
 * queue runs in order and stops at the first task that raises.
 */
module Runner {
  import opened Wrappers
  import opened Names
  import opened Procedures
  import opened Tasks
  import opened Manager
  import opened Graph

  /**
   * Why a run stopped. `Stalled` is the concurrent dispatch waiting for a
   * completion that never comes, where the source hangs.
   */
  datatype RunError =
    | Unresolvable(cause: ResolutionError)
    | ExecutionFailed(target: TaskName)
    | Stalled

  /** The names of the queued tasks. */
  function QueueNames(queue: seq<Task>): (names: seq<TaskName>)
  {
    seq(|queue|, i requires 0 <= i < |queue| => queue[i].name)
  }

  /** Every queued task is the one registered under its name. */
  ghost predicate FromRegistry(reg: Registry, queue: seq<Task>)
  {
    forall i :: 0 <= i < |queue| ==> queue[i].name in reg && reg[queue[i].name] == queue[i]
  }

  /** `__create_queue_recursively`. */
  method CreateQueueRecursively(reg: Registry, ghost roots: set<TaskName>, target: TaskName,
                                queue: seq<Task>, visited: set<TaskName>, added: set<TaskName>,
                                ghost stack: seq<TaskName>)
    returns (queue': seq<Task>, visited': set<TaskName>, added': set<TaskName>, err: Option<ResolutionError>)
    requires WellKeyed(reg) && FromRegistry(reg, queue)
    requires DfsInv(reg, roots, stack, visited, added, QueueNames(queue))
    requires Entry(reg, roots, stack, target)
    ensures err.Some? ==> ErrorSound(reg, roots, err.value)
    ensures err.None? ==>
      && FromRegistry(reg, queue')
      && DfsInv(reg, roots, stack, visited', added', QueueNames(queue'))
      && visited <= visited' && added <= added'
      && Settled(reg, added', target)
    decreases |reg.Keys - visited|, 1
  {
    if target in visited {
      if target in added {
        return queue, visited, added, None;
      }
      CycleFromStack(reg, roots, stack, visited, added, QueueNames(queue), target);
      return queue, visited, added, Some(CircularDependency(target));
    }

    if target !in reg {
      if target.PathName? {
        return queue, visited, added, None;
      }
      EnteredIsReachable(reg, roots, stack, target);
      return queue, visited, added, Some(NotFound(target));
    }
    var task := reg[target];

    assert (set x | x in stack) <= visited;
    PushKeepsInvariant(reg, roots, stack, visited, added, QueueNames(queue), target);
    SmallerRemainder(reg.Keys, visited, visited + {target}, target);
    queue', visited', added', err := VisitDependencies(reg, roots, target, queue, visited + {target}, added, stack);
    if err.Some? {
      return;
    }

    FinishTask(reg, roots, stack, visited', added', queue', target);
    queue' := queue' + [task];
    added' := added' + {target};
  }

  /** Appending a finished task to the queue keeps the search invariant. */
  lemma FinishTask(reg: Registry, roots: set<TaskName>, stack: seq<TaskName>,
                   visited: set<TaskName>, added: set<TaskName>, queue: seq<Task>, target: TaskName)
    requires WellKeyed(reg) && FromRegistry(reg, queue)
    requires DfsInv(reg, roots, stack + [target], visited, added, QueueNames(queue))
    requires target in reg && target !in (set x | x in stack)
    requires forall d :: d in reg[target].dependencies ==> Settled(reg, added, d)
    ensures FromRegistry(reg, queue + [reg[target]])
    ensures DfsInv(reg, roots, stack, visited, added + {target}, QueueNames(queue + [reg[target]]))
  {
    PopKeepsInvariant(reg, roots, stack, visited, added, QueueNames(queue), target);
    assert QueueNames(queue + [reg[target]]) == QueueNames(queue) + [target];
  }

  /** The loop of `__create_queue_recursively` over the dependencies of the entered task `target`. */
  method VisitDependencies(reg: Registry, ghost roots: set<TaskName>, target: TaskName,
                           queue: seq<Task>, visited: set<TaskName>, added: set<TaskName>,
                           ghost stack: seq<TaskName>)
    returns (queue': seq<Task>, visited': set<TaskName>, added': set<TaskName>, err: Option<ResolutionError>)
    requires WellKeyed(reg) && FromRegistry(reg, queue)
    requires target in reg && target in visited && target !in added
    requires DfsInv(reg, roots, stack + [target], visited, added, QueueNames(queue))
    ensures err.Some? ==> ErrorSound(reg, roots, err.value)
    ensures err.None? ==>
      && FromRegistry(reg, queue')
      && DfsInv(reg, roots, stack + [target], visited', added', QueueNames(queue'))
      && visited <= visited' && added <= added'
      && forall d :: d in reg[target].dependencies ==> Settled(reg, added', d)
    decreases |reg.Keys - visited| + 1, 0
  {
    var dependencies := reg[target].dependencies;
    queue', visited', added' := queue, visited, added;
    for i := 0 to |dependencies|
      invariant FromRegistry(reg, queue')
      invariant DfsInv(reg, roots, stack + [target], visited', added', QueueNames(queue'))
      invariant visited <= visited' && added <= added'
      invariant forall d :: d in dependencies[..i] ==> Settled(reg, added', d)
    {
      var e;
      assert Last(stack + [target]) == target;
      NoLargerRemainder(reg.Keys, visited, visited');
      ghost var before := added';
      queue', visited', added', e := CreateQueueRecursively(reg, roots, dependencies[i], queue', visited', added', stack + [target]);
      if e.Some? {
        return queue', visited', added', e;
      }
      SettledGrows(reg, before, added', dependencies[..i]);
      assert dependencies[..i + 1] == dependencies[..i] + [dependencies[i]];
    }
    assert dependencies[..|dependencies|] == dependencies;
    err := None;
  }

  /**
   * `__create_queue`: the queue is an execution plan for the targets exactly
   * when there is neither a reachable cycle nor a reachable missing name;
   * otherwise the error reported is one of those.
   */
  method CreateQueue(reg: Registry, targets: seq<TaskName>) returns (queue: seq<Task>, err: Option<ResolutionError>)
    requires WellKeyed(reg)
    ensures err.None? <==>
      !HasReachableCycle(reg, Roots(targets)) && !HasReachableMissing(reg, Roots(targets))
    ensures err.Some? ==> ErrorSound(reg, Roots(targets), err.value)
    ensures err.None? ==> FromRegistry(reg, queue) && IsExecutionPlan(reg, Roots(targets), QueueNames(queue))
  {
    ghost var roots := Roots(targets);
    queue := [];
    var visited: set<TaskName> := {};
    var added: set<TaskName> := {};
    for i := 0 to |targets|
      invariant FromRegistry(reg, queue)
      invariant DfsInv(reg, roots, [], visited, added, QueueNames(queue))
      invariant forall r :: r in targets[..i] ==> Settled(reg, added, r)
    {
      var e;
      ghost var before := added;
      queue, visited, added, e := CreateQueueRecursively(reg, roots, targets[i], queue, visited, added, []);
      if e.Some? {
        ErrorMeansCycleOrMissing(reg, roots, e.value);
        return queue, e;
      }
      SettledGrows(reg, before, added, targets[..i]);
      assert targets[..i + 1] == targets[..i] + [targets[i]];
    }
    assert targets[..|targets|] == targets;
    PlanFromSearch(reg, roots, visited, added, QueueNames(queue));
    err := None;
  }

  /** What running a queue did: the final filesystem, the tasks run in order, the calls, the verbose lines, and the task that raised. */
  datatype Execution = Execution(fs: FileSystem, ran: seq<TaskName>, calls: seq<Call>, output: seq<string>, failed: Option<TaskName>)

  /** The line printed before a task runs in verbose mode. */
  function TaskLine(name: TaskName): string
  {
    "[Task] " + NameToString(name)
  }

  /** Running the queue in order until a task raises. */
  function Execute(queue: seq<Task>, fs: FileSystem, env: UserBehaviour, verbose: bool): Execution
    decreases |queue|
  {
    if queue == [] then Execution(fs, [], [], [], None)
    else
      var task := queue[0];
      var line := if verbose then [TaskLine(task.name)] else [];
      var e := task.Run(fs, env);
      if e.raised then Execution(e.fs, [task.name], e.calls, line, Some(task.name))
      else
        var rest := Execute(queue[1..], e.fs, env, verbose);
        Execution(rest.fs, [task.name] + rest.ran, e.calls + rest.calls, line + rest.output, rest.failed)
  }

  /**
   * The tasks run are a prefix of the queue, each run once; when no task
   * raises the whole queue runs, and a task that raises is the last one run.
   */
  lemma {:induction false} ExecuteRunsPrefix(queue: seq<Task>, fs: FileSystem, env: UserBehaviour, verbose: bool)
    ensures var x := Execute(queue, fs, env, verbose);
      && |x.ran| <= |queue| && (forall i :: 0 <= i < |x.ran| ==> x.ran[i] == queue[i].name)
      && (x.failed.None? ==> |x.ran| == |queue|)
      && (x.failed.Some? ==> |x.ran| > 0 && x.failed.value == Last(x.ran))
    decreases |queue|
  {
    if queue != [] {
      var e := queue[0].Run(fs, env);
      if !e.raised {
        ExecuteRunsPrefix(queue[1..], e.fs, env, verbose);
      }
    }
  }

  /** In verbose mode one line naming each task is printed before it runs; otherwise nothing is. */
  lemma {:induction false} ExecuteOutput(queue: seq<Task>, fs: FileSystem, env: UserBehaviour, verbose: bool)
    ensures var x := Execute(queue, fs, env, verbose);
      && (verbose ==> |x.output| == |x.ran| && forall i :: 0 <= i < |x.ran| ==> x.output[i] == TaskLine(x.ran[i]))
      && (!verbose ==> x.output == [])
    decreases |queue|
  {
    if queue != [] {
      var e := queue[0].Run(fs, env);
      if !e.raised {
        ExecuteOutput(queue[1..], e.fs, env, verbose);
      }
    }
  }

  /** Unfolds `Execute` once at position `i` of the queue. */
  lemma ExecuteStep(queue: seq<Task>, i: nat, fs: FileSystem, env: UserBehaviour, verbose: bool)
    requires i < |queue|
    ensures var task := queue[i];
      var e := task.Run(fs, env);
      var line := if verbose then [TaskLine(task.name)] else [];
      Execute(queue[i..], fs, env, verbose) ==
        if e.raised then Execution(e.fs, [task.name], e.calls, line, Some(task.name))
        else Continue([task.name], e.calls, line, Execute(queue[i + 1..], e.fs, env, verbose))
  {
    assert queue[i..][1..] == queue[i + 1..];
  }

  /** The steps already taken, followed by the execution `x` of the rest of the queue. */
  function Continue(ran: seq<TaskName>, calls: seq<Call>, output: seq<string>, x: Execution): Execution
  {
    Execution(x.fs, ran + x.ran, calls + x.calls, output + x.output, x.failed)
  }

  lemma ContinueTwice(ran: seq<TaskName>, calls: seq<Call>, output: seq<string>,
                      ran': seq<TaskName>, calls': seq<Call>, output': seq<string>, x: Execution)
    ensures Continue(ran, calls, output, Continue(ran', calls', output', x)) == Continue(ran + ran', calls + calls', output + output', x)
  {
    assert ran + (ran' + x.ran) == (ran + ran') + x.ran;
    assert calls + (calls' + x.calls) == (calls + calls') + x.calls;
    assert output + (output' + x.output) == (output + output') + x.output;
  }

  /** One step of the loop of `__execute_queue` keeps it in step with `Execute`. */
  lemma ExecuteAdvance(queue: seq<Task>, i: nat, current: FileSystem, env: UserBehaviour, verbose: bool,
                       ran: seq<TaskName>, calls: seq<Call>, output: seq<string>, line: seq<string>, e: Effect, whole: Execution)
    requires i < |queue|
    requires Continue(ran, calls, output, Execute(queue[i..], current, env, verbose)) == whole
    requires line == if verbose then [TaskLine(queue[i].name)] else []
    requires e == queue[i].Run(current, env)
    ensures e.raised ==> whole == Execution(e.fs, ran + [queue[i].name], calls + e.calls, output + line, Some(queue[i].name))
    ensures !e.raised ==>
      Continue(ran + [queue[i].name], calls + e.calls, output + line, Execute(queue[i + 1..], e.fs, env, verbose)) == whole
  {
    ExecuteStep(queue, i, current, env, verbose);
    if !e.raised {
      ContinueTwice(ran, calls, output, [queue[i].name], e.calls, line, Execute(queue[i + 1..], e.fs, env, verbose));
    }
  }

  /** At the end of the queue nothing is left to run. */
  lemma ExecuteEnd(queue: seq<Task>, current: FileSystem, env: UserBehaviour, verbose: bool,
                   ran: seq<TaskName>, calls: seq<Call>, output: seq<string>)
    ensures Continue(ran, calls, output, Execute(queue[|queue|..], current, env, verbose)) == Execution(current, ran, calls, output, None)
  {
    assert queue[|queue|..] == [];
    assert ran + [] == ran && calls + [] == calls && output + [] == output;
  }

  class TaskRunner {
    const manager: TaskManager
    const verbose: bool

    constructor(manager: TaskManager, verbose: bool)
      ensures this.manager == manager && this.verbose == verbose
    {
      this.manager := manager;
      this.verbose := verbose;
    }

    /** `__execute_queue`: the loop over the queue, proved to behave as `Execute`. */
    method ExecuteQueue(queue: seq<Task>, fs: FileSystem, env: UserBehaviour) returns (x: Execution)
      ensures x == Execute(queue, fs, env, verbose)
    {
      var current := fs;
      var ran: seq<TaskName> := [];
      var calls: seq<Call> := [];
      var output: seq<string> := [];
      assert queue[0..] == queue;
      for i := 0 to |queue|
        invariant Continue(ran, calls, output, Execute(queue[i..], current, env, verbose)) == Execute(queue, fs, env, verbose)
      {
        var task := queue[i];
        var line: seq<string> := [];
        if verbose {
          line := [TaskLine(task.name)];
        }
        var e := RunTask(task, current, env);
        ExecuteAdvance(queue, i, current, env, verbose, ran, calls, output, line, e, Execute(queue, fs, env, verbose));
        if e.raised {
          return Execution(e.fs, ran + [task.name], calls + e.calls, output + line, Some(task.name));
        }
        ran, calls, output, current := ran + [task.name], calls + e.calls, output + line, e.fs;
      }
      ExecuteEnd(queue, current, env, verbose, ran, calls, output);
      x := Execution(current, ran, calls, output, None);
    }

    /**
     * `run`: when ordering fails nothing runs and the filesystem is untouched;
     * otherwise the queue of an execution plan runs as `Execute` states, and
     * the run fails exactly when a task raises, which is then the last one run.
     */
    method Run(targets: seq<TaskName>, fs: FileSystem, env: UserBehaviour) returns (x: Execution, err: Option<RunError>)
      requires manager.Valid()
      ensures err.Some? ==> err.value.Unresolvable? || err.value.ExecutionFailed?
      ensures (HasReachableCycle(manager.tasks, Roots(targets)) || HasReachableMissing(manager.tasks, Roots(targets)))
        ==> err.Some? && err.value.Unresolvable? && x == Execution(fs, [], [], [], None)
      ensures err.Some? && err.value.Unresolvable? ==>
        && ErrorSound(manager.tasks, Roots(targets), err.value.cause)
        && x == Execution(fs, [], [], [], None)
      ensures (!HasReachableCycle(manager.tasks, Roots(targets)) && !HasReachableMissing(manager.tasks, Roots(targets)))
        <==> (err.None? || err.value.ExecutionFailed?)
      ensures (err.None? || err.value.ExecutionFailed?) ==>
        && exists plan ::
             IsExecutionPlan(manager.tasks, Roots(targets), plan) && x.ran <= plan && (err.None? ==> x.ran == plan)
      ensures err.Some? && err.value.ExecutionFailed? ==> x.failed == Some(err.value.target) && |x.ran| > 0 && Last(x.ran) == err.value.target
      ensures err.None? ==> x.failed.None?
      ensures (err.None? || err.value.ExecutionFailed?) ==>
        exists queue ::
          && FromRegistry(manager.tasks, queue)
          && IsExecutionPlan(manager.tasks, Roots(targets), QueueNames(queue))
          && x == Execute(queue, fs, env, verbose)
    {
      var reg := manager.tasks;
      var queue, e := CreateQueue(reg, targets);
      if e.Some? {
        return Execution(fs, [], [], [], None), Some(Unresolvable(e.value));
      }
      x := ExecuteQueue(queue, fs, env);
      ExecuteRunsPrefix(queue, fs, env, verbose);
      assert x.ran <= QueueNames(queue);
      if x.failed.Some? {
        err := Some(ExecutionFailed(x.failed.value));
      } else {
        err := None;
      }
    }
  }
}
