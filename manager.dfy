/**
 * The task registry (kumade/manager.py): tasks keyed by name, in the order
 * they were registered, and the name of the default task.
 */
module Manager {
  import opened Wrappers
  import opened Names
  import opened Tasks

  /** No name occurs twice. */
  ghost predicate Distinct<T>(s: seq<T>)
  {
    forall i, j :: 0 <= i < j < |s| ==> s[i] != s[j]
  }

  /** A sequence without repetitions has as many elements as its set. */
  lemma {:induction false} DistinctCardinality<T>(s: seq<T>)
    requires Distinct(s)
    ensures |set x | x in s| == |s|
  {
    if s != [] {
      var rest := s[1..];
      DistinctCardinality(rest);
      assert (set x | x in s) == (set x | x in rest) + {s[0]};
      assert s[0] !in rest;
    }
  }

  /** The positions in `ts` of the tasks that have a description, in increasing order. */
  function HelpPositions(ts: seq<Task>): (ps: seq<nat>)
    ensures forall i :: 0 <= i < |ps| ==> ps[i] < |ts| && ts[ps[i]].HasHelp()
    ensures forall i, j :: 0 <= i < j < |ps| ==> ps[i] < ps[j]
    ensures forall k :: 0 <= k < |ts| && ts[k].HasHelp() ==> k in ps
    decreases |ts|
  {
    if ts == [] then []
    else HelpPositions(ts[..|ts| - 1]) + (if ts[|ts| - 1].HasHelp() then [|ts| - 1] else [])
  }

  /**
   * `list(filter(...))` over the descriptions: the tasks of `ts` at exactly
   * the positions that hold a described task, in the order of `ts`.
   */
  function WithHelp(ts: seq<Task>): (r: seq<Task>)
    ensures |r| == |HelpPositions(ts)|
    ensures forall i :: 0 <= i < |r| ==> r[i] == ts[HelpPositions(ts)[i]]
    ensures forall t :: t in r <==> t in ts && t.HasHelp()
    decreases |ts|
  {
    if ts == [] then []
    else WithHelp(ts[..|ts| - 1]) + (if ts[|ts| - 1].HasHelp() then [ts[|ts| - 1]] else [])
  }

  /**
   * Filtering the tasks filed under distinct `names`, in their order, keeps
   * the described ones at increasing positions, each name once.
   */
  lemma FilteredInOrder(ts: seq<Task>, names: seq<TaskName>, tasks: map<TaskName, Task>)
    requires Distinct(names) && |ts| == |names| && forall n :: n in names ==> n in tasks
    requires forall i :: 0 <= i < |ts| ==> ts[i] == tasks[names[i]] && ts[i].name == names[i]
    requires forall t :: t in ts <==> t in tasks.Values
    ensures var r := WithHelp(ts);
      var ps := HelpPositions(ts);
      && |r| == |ps|
      && (forall i :: 0 <= i < |r| ==> ps[i] < |names| && r[i] == tasks[names[ps[i]]])
      && (forall i, j :: 0 <= i < j < |r| ==> r[i].name != r[j].name)
      && (forall t :: t in r <==> t in tasks.Values && t.HasHelp())
  {
    var r := WithHelp(ts);
    var ps := HelpPositions(ts);
    forall i, j | 0 <= i < j < |r|
      ensures r[i].name != r[j].name
    {
      assert ps[i] < ps[j];
      assert r[i] == ts[ps[i]] && r[j] == ts[ps[j]];
    }
  }

  /** The tasks filed under `names`, in that order. */
  function TasksOf(names: seq<TaskName>, tasks: map<TaskName, Task>): seq<Task>
    requires forall n :: n in names ==> n in tasks
  {
    seq(|names|, i requires 0 <= i < |names| => tasks[names[i]])
  }

  class TaskManager {
    var tasks: map<TaskName, Task>
    /** The registered names, in registration order (the order of the source's dict). */
    var names: seq<TaskName>
    var defaultTaskName: Option<string>

    /** Every task is filed under its own name, and `names` lists each key exactly once. */
    ghost predicate Valid()
      reads this
    {
      && (forall n :: n in tasks ==> tasks[n].name == n)
      && Distinct(names)
      && (forall n :: n in tasks <==> n in names)
    }

    constructor()
      ensures Valid()
      ensures tasks == map[] && names == [] && defaultTaskName == None
    {
      tasks := map[];
      names := [];
      defaultTaskName := None;
    }

    /** The `default_task_name` setter. */
    method SetDefaultTaskName(value: Option<string>)
      modifies this
      ensures defaultTaskName == value
      ensures tasks == old(tasks) && names == old(names)
    {
      defaultTaskName := value;
    }

    /** `register`: a second task with a name already taken is refused and nothing changes. */
    method Register(task: Task) returns (r: Result<(), string>)
      requires Valid()
      modifies this
      ensures Valid()
      ensures defaultTaskName == old(defaultTaskName)
      ensures old(task.name in tasks) ==> r.Failure? && tasks == old(tasks) && names == old(names)
      ensures old(task.name !in tasks) ==>
        r.Success? && tasks == old(tasks)[task.name := task] && names == old(names) + [task.name]
    {
      var name := task.name;
      if name in tasks {
        return Failure("Task " + NameToString(name) + " already exists.");
      }
      tasks := tasks[name := task];
      names := names + [name];
      r := Success(());
    }

    /** `find`: the task registered under `name`, if any. */
    function Find(name: TaskName): (r: Option<Task>)
      reads this
      requires Valid()
      ensures r.Some? <==> name in names
      ensures r.Some? ==> r.value.name == name && r.value == tasks[name]
    {
      if name in tasks then Some(tasks[name]) else None
    }

    /** `get_all_tasks`: every registered task exactly once, in registration order. */
    function GetAllTasks(): (r: seq<Task>)
      reads this
      requires Valid()
      ensures |r| == |tasks| == |names|
      ensures forall i :: 0 <= i < |r| ==> r[i] == tasks[names[i]] && r[i].name == names[i]
      ensures forall t :: t in r <==> t in tasks.Values
    {
      DistinctCardinality(names);
      assert tasks.Keys == set x | x in names;
      TasksOf(names, tasks)
    }

    /**
     * `get_tasks_described_with_help`: the registered tasks that have a
     * description, each once, in registration order.
     */
    function GetTasksDescribedWithHelp(): (r: seq<Task>)
      reads this
      requires Valid()
      ensures var ps := HelpPositions(GetAllTasks());
        |r| == |ps| && forall i :: 0 <= i < |r| ==> ps[i] < |names| && r[i] == tasks[names[ps[i]]]
      ensures forall i, j :: 0 <= i < j < |r| ==> r[i].name != r[j].name
      ensures forall t :: t in r <==> t in tasks.Values && t.HasHelp()
    {
      var all := GetAllTasks();
      FilteredInOrder(all, names, tasks);
      WithHelp(all)
    }
  }
}
