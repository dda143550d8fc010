/**
 * The task builders (kumade/builder.py). Each collects the settings of one
 * task through its setters and then builds the task around a procedure.
 */
module Builder {
  import opened Wrappers
  import opened Names
  import opened Procedures
  import opened Tasks

  /** Builds an ordinary task, named by a symbol. */
  class TaskBuilder {
    const name: string
    var args: seq<Value>
    var dependencies: seq<TaskName>
    var help: Option<string>

    constructor(name: string)
      ensures this.name == name && args == [] && dependencies == [] && help == None
    {
      this.name := name;
      args := [];
      dependencies := [];
      help := None;
    }

    method SetArgs(args: seq<Value>)
      modifies this
      ensures this.args == args && dependencies == old(dependencies) && help == old(help)
    {
      this.args := args;
    }

    method SetDependencies(dependencies: seq<TaskName>)
      modifies this
      ensures this.dependencies == dependencies && args == old(args) && help == old(help)
    {
      this.dependencies := dependencies;
    }

    method SetHelp(help: string)
      modifies this
      ensures this.help == Some(help) && args == old(args) && dependencies == old(dependencies)
    {
      this.help := Some(help);
    }

    /** The built task is named by the symbol and runs `procedure` unconditionally with the collected arguments. */
    function Build(procedure: Procedure): (t: Task)
      reads this
      ensures t.name == Symbol(name) && t.args == args && t.dependencies == dependencies && t.help == help
      ensures forall fs, env :: t.Run(fs, env) == Apply(procedure, args, fs, env)
    {
      Task(Symbol(name), procedure, args, dependencies, help)
    }
  }

  /** Builds a file task, named by its target path; it has no description. */
  class FileTaskBuilder {
    const path: Path
    var args: seq<Value>
    var dependencies: seq<TaskName>

    constructor(path: Path)
      ensures this.path == path && args == [] && dependencies == []
    {
      this.path := path;
      args := [];
      dependencies := [];
    }

    method SetArgs(args: seq<Value>)
      modifies this
      ensures this.args == args && dependencies == old(dependencies)
    {
      this.args := args;
    }

    method SetDependencies(dependencies: seq<TaskName>)
      modifies this
      ensures this.dependencies == dependencies && args == old(args)
    {
      this.dependencies := dependencies;
    }

    /**
     * The built task is named by the path, has no description, and its
     * procedure calls `procedure` exactly when the file is out of date.
     */
    function Build(procedure: Procedure): (t: Task)
      reads this
      ensures t.name == PathName(path) && t.args == args && t.dependencies == dependencies && !t.HasHelp()
      ensures forall fs, env ::
        t.Run(fs, env) == if ShouldRun(path, dependencies, fs) then Apply(procedure, args, fs, env) else NoEffect(fs)
    {
      Task(PathName(path), WithFileCheck(path, dependencies, procedure), args, dependencies, None)
    }
  }

  /** Builds a task that deletes the given paths. */
  class CleanTaskBuilder {
    const name: string
    var dependencies: seq<TaskName>
    var help: Option<string>

    constructor(name: string)
      ensures this.name == name && dependencies == [] && help == None
    {
      this.name := name;
      dependencies := [];
      help := None;
    }

    method SetDependencies(dependencies: seq<TaskName>)
      modifies this
      ensures this.dependencies == dependencies && help == old(help)
    {
      this.dependencies := dependencies;
    }

    method SetHelp(help: string)
      modifies this
      ensures this.help == Some(help) && dependencies == old(dependencies)
    {
      this.help := Some(help);
    }

    /**
     * The built task is named by the symbol, takes the paths as its arguments,
     * and running it deletes every one of them and nothing outside them.
     */
    function Build(cleanPaths: seq<Value>): (t: Task)
      reads this
      ensures t.name == Symbol(name) && t.args == cleanPaths && t.dependencies == dependencies && t.help == help
      ensures forall fs, env :: t.Run(fs, env) == Clean(cleanPaths, fs)
    {
      Task(Symbol(name), CleanProcedure, cleanPaths, dependencies, help)
    }
  }
}
