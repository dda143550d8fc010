/**
 * The task helpers of kumade/utility.py: naming the default task, and
 * registering a clean task or a directory-creating file task.
 */
module Utility {
  import opened Wrappers
  import opened Names
  import opened Tasks
  import opened Manager
  import opened Builder
  import P = Procedures

  /** `set_default`: the manager's default task name becomes `name`. */
  method SetDefault(manager: TaskManager, name: string)
    modifies manager
    ensures manager.defaultTaskName == Some(name)
    ensures manager.tasks == old(manager.tasks) && manager.names == old(manager.names)
  {
    manager.SetDefaultTaskName(Some(name));
  }

  /**
   * `clean`: registers a task named `name` that deletes `paths`; the
   * dependencies and the description are set only when given. A taken name
   * is refused and nothing changes.
   */
  method Clean(manager: TaskManager, name: string, paths: seq<Path>, dependencies: Option<seq<TaskName>>, help: Option<string>)
    returns (r: Result<(), string>)
    requires manager.Valid()
    modifies manager
    ensures manager.Valid() && manager.defaultTaskName == old(manager.defaultTaskName)
    ensures old(Symbol(name) in manager.tasks) ==> r.Failure? && manager.tasks == old(manager.tasks) && manager.names == old(manager.names)
    ensures old(Symbol(name) !in manager.tasks) ==>
      && r.Success?
      && manager.names == old(manager.names) + [Symbol(name)]
      && manager.tasks == old(manager.tasks)[Symbol(name) := Task(
           Symbol(name), P.CleanProcedure, PathArgs(paths),
           if dependencies.Some? then dependencies.value else [], help)]
  {
    var builder := new CleanTaskBuilder(name);
    if dependencies.Some? {
      builder.SetDependencies(dependencies.value);
    }
    if help.Some? {
      builder.SetHelp(help.value);
    }
    var t := builder.Build(PathArgs(paths));
    r := manager.Register(t);
  }

  /** The paths as bound arguments. */
  function PathArgs(paths: seq<Path>): (args: seq<Value>)
    ensures |args| == |paths| && forall i :: 0 <= i < |paths| ==> args[i] == PathArg(paths[i])
  {
    seq(|paths|, i requires 0 <= i < |paths| => PathArg(paths[i]))
  }

  /**
   * `directory`: registers a file task keyed by `path` whose only argument
   * is that path and whose procedure creates the directory, gated by the
   * staleness check. Its run creates a missing directory once and then
   * finds it up to date. A taken path is refused and nothing changes.
   */
  method Directory(manager: TaskManager, path: Path, dependencies: Option<seq<TaskName>>)
    returns (r: Result<(), string>)
    requires manager.Valid()
    modifies manager
    ensures manager.Valid() && manager.defaultTaskName == old(manager.defaultTaskName)
    ensures old(PathName(path) in manager.tasks) ==> r.Failure? && manager.tasks == old(manager.tasks) && manager.names == old(manager.names)
    ensures old(PathName(path) !in manager.tasks) ==>
      var deps := if dependencies.Some? then dependencies.value else [];
      && r.Success?
      && manager.names == old(manager.names) + [PathName(path)]
      && manager.tasks == old(manager.tasks)[PathName(path) := Task(
           PathName(path), P.WithFileCheck(path, deps, P.MakeDirectory), [PathArg(path)], deps, None)]
  {
    var builder := new FileTaskBuilder(path);
    builder.SetArgs([PathArg(path)]);
    if dependencies.Some? {
      builder.SetDependencies(dependencies.value);
    }
    var t := builder.Build(P.MakeDirectory);
    r := manager.Register(t);
  }
}
