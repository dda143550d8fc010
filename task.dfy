/**
 * A task (kumade/task.py): a name, the procedure it runs, the arguments the
 * procedure is called with, the names of the tasks it depends on, and an
 * optional description.
 */
module Tasks {
  import opened Wrappers
  import opened Names
  import opened Procedures

  datatype Task = Task(
    name: TaskName,
    procedure: Procedure,
    args: seq<Value>,
    dependencies: seq<TaskName>,
    help: Option<string>)
  {
    /** Whether the task has a description. */
    predicate HasHelp()
    {
      help.Some?
    }

    /** `Task.run`: the procedure called with the bound arguments. */
    function Run(fs: FileSystem, env: UserBehaviour): Effect
    {
      Apply(procedure, args, fs, env)
    }
  }

  /** Runs a task through the procedure loops of `RunProcedure`. */
  method RunTask(task: Task, fs: FileSystem, env: UserBehaviour) returns (e: Effect)
    ensures e == task.Run(fs, env)
  {
    e := RunProcedure(task.procedure, task.args, fs, env);
  }
}
