/**
 * The task decorators (kumade/decorator.py). `bind_args`, `depend` and
 * `help` wrap a procedure, or an already wrapped one, in a configuration
 * step; `task` and `file` then run the chain of steps on a fresh builder,
 * innermost first, build the task around the innermost procedure and
 * register it.
 */
module Decorator {
  import opened Wrappers
  import opened Names
  import opened Procedures
  import opened Tasks
  import opened Manager
  import opened Builder

  /** What one wrapper does to the builder it is given. */
  datatype ConfigStep =
    | NoConfig
    | BindArgs(args: seq<Value>)
    | SetDependencies(dependencies: seq<TaskName>)
    | SetHelpIfNeeded(desc: Option<string>)

  /** A procedure, or a `TaskConfig` wrapping a base in one more step. */
  datatype Decorated = Plain(procedure: Procedure) | Configured(base: Decorated, step: ConfigStep)

  /** The settings a builder collects. */
  datatype Settings = Settings(args: seq<Value>, dependencies: seq<TaskName>, help: Option<string>)

  /** The entries of `dependencies` that are not `None`, in order. */
  function Present(dependencies: seq<Option<TaskName>>): seq<TaskName>
    decreases |dependencies|
  {
    if dependencies == [] then []
    else (if dependencies[0].Some? then [dependencies[0].value] else []) + Present(dependencies[1..])
  }

  /**
   * `depend` keeps the given names in order and drops `None`: it maps
   * concatenation to concatenation, a name to itself and `None` to nothing.
   */
  lemma {:induction false} PresentKeepsOrder(a: seq<Option<TaskName>>, b: seq<Option<TaskName>>)
    ensures Present(a + b) == Present(a) + Present(b)
    ensures forall n :: Present([Some(n)]) == [n]
    ensures Present([None]) == []
    decreases |a|
  {
    if a == [] {
      assert a + b == b;
    } else {
      assert (a + b)[1..] == a[1..] + b;
      PresentKeepsOrder(a[1..], b);
    }
    forall n: TaskName
      ensures Present([Some(n)]) == [n]
    {
      assert [Some(n)][1..] == [];
    }
    var none: seq<Option<TaskName>> := [None];
    assert none[1..] == [];
  }

  /** `bind_args(*args)`: the arguments are the values given at decoration. */
  function Bind(args: seq<Value>, base: Decorated): Decorated
  {
    Configured(base, BindArgs(args))
  }

  /** `depend(*dependencies)`. */
  function Depend(dependencies: seq<Option<TaskName>>, base: Decorated): Decorated
  {
    Configured(base, SetDependencies(Present(dependencies)))
  }

  /** `help(desc)`. */
  function Help(desc: Option<string>, base: Decorated): Decorated
  {
    Configured(base, SetHelpIfNeeded(desc))
  }

  function ApplyStep(step: ConfigStep, s: Settings): Settings
  {
    match step
    case NoConfig => s
    case BindArgs(args) => s.(args := args)
    case SetDependencies(dependencies) => s.(dependencies := dependencies)
    case SetHelpIfNeeded(desc) => if desc.Some? then s.(help := desc) else s
  }

  /** `setup_builder` on settings: the inner steps first, then this one. */
  function Configure(d: Decorated, s: Settings): Settings
    decreases d
  {
    match d
    case Plain(_) => s
    case Configured(base, step) => ApplyStep(step, Configure(base, s))
  }

  /** The procedure `setup_builder` returns: the innermost one. */
  function Innermost(d: Decorated): Procedure
    decreases d
  {
    match d
    case Plain(p) => p
    case Configured(base, _) => Innermost(base)
  }

  /** The chain has a `help` step that sets a description. */
  predicate SetsHelp(d: Decorated)
    decreases d
  {
    match d
    case Plain(_) => false
    case Configured(base, step) => (step.SetHelpIfNeeded? && step.desc.Some?) || SetsHelp(base)
  }

  /**
   * The outermost wrapper of a kind decides that setting, whatever the
   * wrappers inside it set; `help(None)` leaves the description as it was.
   */
  lemma {:induction false} OutermostWins(base: Decorated, s: Settings, args: seq<Value>, deps: seq<Option<TaskName>>)
    ensures Configure(Bind(args, base), s).args == args
    ensures Configure(Depend(deps, base), s).dependencies == Present(deps)
    ensures Configure(Help(None, base), s) == Configure(base, s)
    ensures forall desc :: Configure(Help(Some(desc), base), s).help == Some(desc)
  {
  }

  /** `setup_builder` on a task builder: runs the steps, innermost first, and returns the innermost procedure. */
  method SetupTaskBuilder(d: Decorated, builder: TaskBuilder) returns (p: Procedure)
    modifies builder
    ensures p == Innermost(d)
    ensures Settings(builder.args, builder.dependencies, builder.help)
      == Configure(d, Settings(old(builder.args), old(builder.dependencies), old(builder.help)))
    decreases d
  {
    match d
    case Plain(procedure) =>
      p := procedure;
    case Configured(base, step) =>
      p := SetupTaskBuilder(base, builder);
      match step
      case NoConfig =>
      case BindArgs(args) => builder.SetArgs(args);
      case SetDependencies(dependencies) => builder.SetDependencies(dependencies);
      case SetHelpIfNeeded(desc) =>
        if desc.Some? {
          builder.SetHelp(desc.value);
        }
  }

  /**
   * `setup_builder` on a file task builder. A file builder has no
   * description: a `help` step that sets one fails (an `AttributeError`),
   * after the steps inside it have run.
   */
  method SetupFileBuilder(d: Decorated, builder: FileTaskBuilder) returns (p: Procedure, err: Option<string>)
    modifies builder
    ensures err.Some? <==> SetsHelp(d)
    ensures err.None? ==> p == Innermost(d)
    ensures err.None? ==>
      Settings(builder.args, builder.dependencies, None) == Configure(d, Settings(old(builder.args), old(builder.dependencies), None))
    decreases d
  {
    match d
    case Plain(procedure) =>
      p, err := procedure, None;
    case Configured(base, step) =>
      p, err := SetupFileBuilder(base, builder);
      if err.Some? {
        return;
      }
      match step
      case NoConfig =>
      case BindArgs(args) => builder.SetArgs(args);
      case SetDependencies(dependencies) => builder.SetDependencies(dependencies);
      case SetHelpIfNeeded(desc) =>
        if desc.Some? {
          err := Some("'FileTaskBuilder' object has no attribute 'set_help'");
        }
  }

  /** The task `task(name)` builds from a chain. */
  function TaskFrom(name: string, d: Decorated): Task
  {
    var s := Configure(d, Settings([], [], None));
    Task(Symbol(name), Innermost(d), s.args, s.dependencies, s.help)
  }

  /** The task `file(path)` builds from a chain. */
  function FileTaskFrom(path: Path, d: Decorated): Task
  {
    var s := Configure(d, Settings([], [], None));
    Task(PathName(path), WithFileCheck(path, s.dependencies, Innermost(d)), s.args, s.dependencies, None)
  }

  /**
   * `task(name)`: registers one task named `name` that runs the innermost
   * procedure with the configured arguments, dependencies and description,
   * and gives back that procedure; a taken name is refused and nothing changes.
   */
  method TaskDecorator(manager: TaskManager, name: string, base: Decorated) returns (p: Procedure, r: Result<(), string>)
    requires manager.Valid()
    modifies manager
    ensures manager.Valid() && p == Innermost(base)
    ensures manager.defaultTaskName == old(manager.defaultTaskName)
    ensures old(Symbol(name) in manager.tasks) ==> r.Failure? && manager.tasks == old(manager.tasks) && manager.names == old(manager.names)
    ensures old(Symbol(name) !in manager.tasks) ==>
      && r.Success?
      && manager.tasks == old(manager.tasks)[Symbol(name) := TaskFrom(name, base)]
      && manager.names == old(manager.names) + [Symbol(name)]
  {
    var config := Configured(base, NoConfig);
    var builder := new TaskBuilder(name);
    p := SetupTaskBuilder(config, builder);
    var t := builder.Build(p);
    r := manager.Register(t);
  }

  /**
   * `file(path)`: registers one file task keyed by `path`, whose procedure
   * is gated by the staleness check; a chain that sets a description, or a
   * taken path, is refused and nothing is registered.
   */
  method FileDecorator(manager: TaskManager, path: Path, base: Decorated) returns (p: Procedure, r: Result<(), string>)
    requires manager.Valid()
    modifies manager
    ensures manager.Valid()
    ensures manager.defaultTaskName == old(manager.defaultTaskName)
    ensures (SetsHelp(base) || old(PathName(path) in manager.tasks)) ==>
      r.Failure? && manager.tasks == old(manager.tasks) && manager.names == old(manager.names)
    ensures !SetsHelp(base) && old(PathName(path) !in manager.tasks) ==>
      && r.Success? && p == Innermost(base)
      && manager.tasks == old(manager.tasks)[PathName(path) := FileTaskFrom(path, base)]
      && manager.names == old(manager.names) + [PathName(path)]
  {
    var config := Configured(base, NoConfig);
    var builder := new FileTaskBuilder(path);
    var err;
    p, err := SetupFileBuilder(config, builder);
    if err.Some? {
      return p, Failure(err.value);
    }
    var t := builder.Build(p);
    r := manager.Register(t);
  }
}
