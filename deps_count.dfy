/**
 * The dependency counts of the concurrent runner
 * (`__create_dependencies_count` in kumade/concurrent/runner.py): the same
 * depth-first search as the sequential runner, recording for every reachable
 * registered task how many entries of its dependency list are registered
 * tasks. The counts form a dictionary whose keys keep insertion order.
 */
module DependencyCount {
  import opened Wrappers
  import opened Names
  import opened Tasks
  import opened Manager
  import opened Graph

  /** The number of entries of `deps` that are registered tasks, repeats included. */
  function RegisteredCount(deps: seq<TaskName>, reg: Registry): nat
    decreases |deps|
  {
    if deps == [] then 0
    else RegisteredCount(deps[..|deps| - 1], reg) + (if Last(deps) in reg then 1 else 0)
  }

  /** A dictionary from task names to counts; `keys` is its insertion order. */
  datatype DepsCount = DepsCount(keys: seq<TaskName>, count: map<TaskName, int>)

  /** Every key counts the registered entries of its task's dependency list. */
  ghost predicate CountsRight(reg: Registry, dc: DepsCount)
  {
    && (forall n :: n in dc.count <==> n in dc.keys)
    && forall n :: n in dc.count ==> n in reg && dc.count[n] == RegisteredCount(reg[n].dependencies, reg)
  }

  /** `__create_deps_count_recursively`: returns 1 for a registered task, 0 for a plain file. */
  method CreateDepsCountRecursively(reg: Registry, ghost roots: set<TaskName>, target: TaskName,
                                    dc: DepsCount, visited: set<TaskName>, added: set<TaskName>,
                                    ghost stack: seq<TaskName>)
    returns (r: int, dc': DepsCount, visited': set<TaskName>, added': set<TaskName>, err: Option<ResolutionError>)
    requires CountsRight(reg, dc)
    requires DfsInv(reg, roots, stack, visited, added, dc.keys)
    requires Entry(reg, roots, stack, target)
    ensures err.Some? ==> ErrorSound(reg, roots, err.value)
    ensures err.None? ==>
      && CountsRight(reg, dc')
      && DfsInv(reg, roots, stack, visited', added', dc'.keys)
      && visited <= visited' && added <= added'
      && Settled(reg, added', target)
      && r == if target in reg then 1 else 0
    decreases |reg.Keys - visited|, 1
  {
    if target in visited {
      if target in added {
        return 1, dc, visited, added, None;
      }
      CycleFromStack(reg, roots, stack, visited, added, dc.keys, target);
      return 0, dc, visited, added, Some(CircularDependency(target));
    }

    if target !in reg {
      if target.PathName? {
        return 0, dc, visited, added, None;
      }
      EnteredIsReachable(reg, roots, stack, target);
      return 0, dc, visited, added, Some(NotFound(target));
    }

    assert (set x | x in stack) <= visited;
    PushKeepsInvariant(reg, roots, stack, visited, added, dc.keys, target);
    SmallerRemainder(reg.Keys, visited, visited + {target}, target);
    var count;
    count, dc', visited', added', err := CountDependencies(reg, roots, target, dc, visited + {target}, added, stack);
    if err.Some? {
      return 0, dc', visited', added', err;
    }

    FinishCount(reg, roots, stack, visited', added', dc', target, count);
    dc' := DepsCount(dc'.keys + [target], dc'.count[target := count]);
    added' := added' + {target};
    r := 1;
  }

  /** Recording the count of a finished task keeps the search invariant and the counts right. */
  lemma FinishCount(reg: Registry, roots: set<TaskName>, stack: seq<TaskName>,
                    visited: set<TaskName>, added: set<TaskName>, dc: DepsCount, target: TaskName, count: int)
    requires CountsRight(reg, dc)
    requires DfsInv(reg, roots, stack + [target], visited, added, dc.keys)
    requires target in reg && target !in (set x | x in stack)
    requires forall d :: d in reg[target].dependencies ==> Settled(reg, added, d)
    requires count == RegisteredCount(reg[target].dependencies, reg)
    ensures CountsRight(reg, DepsCount(dc.keys + [target], dc.count[target := count]))
    ensures DfsInv(reg, roots, stack, visited, added + {target}, dc.keys + [target])
  {
    PopKeepsInvariant(reg, roots, stack, visited, added, dc.keys, target);
  }

  /** The loop of `__create_deps_count_recursively` summing over the dependencies of the entered task `target`. */
  method CountDependencies(reg: Registry, ghost roots: set<TaskName>, target: TaskName,
                           dc: DepsCount, visited: set<TaskName>, added: set<TaskName>,
                           ghost stack: seq<TaskName>)
    returns (count: int, dc': DepsCount, visited': set<TaskName>, added': set<TaskName>, err: Option<ResolutionError>)
    requires CountsRight(reg, dc)
    requires target in reg && target in visited && target !in added
    requires DfsInv(reg, roots, stack + [target], visited, added, dc.keys)
    ensures err.Some? ==> ErrorSound(reg, roots, err.value)
    ensures err.None? ==>
      && CountsRight(reg, dc')
      && DfsInv(reg, roots, stack + [target], visited', added', dc'.keys)
      && visited <= visited' && added <= added'
      && (forall d :: d in reg[target].dependencies ==> Settled(reg, added', d))
      && count == RegisteredCount(reg[target].dependencies, reg)
    decreases |reg.Keys - visited| + 1, 0
  {
    var dependencies := reg[target].dependencies;
    count, dc', visited', added' := 0, dc, visited, added;
    for i := 0 to |dependencies|
      invariant CountsRight(reg, dc')
      invariant DfsInv(reg, roots, stack + [target], visited', added', dc'.keys)
      invariant visited <= visited' && added <= added'
      invariant forall d :: d in dependencies[..i] ==> Settled(reg, added', d)
      invariant count == RegisteredCount(dependencies[..i], reg)
    {
      var e, one;
      assert Last(stack + [target]) == target;
      NoLargerRemainder(reg.Keys, visited, visited');
      ghost var before := added';
      one, dc', visited', added', e := CreateDepsCountRecursively(reg, roots, dependencies[i], dc', visited', added', stack + [target]);
      if e.Some? {
        return 0, dc', visited', added', e;
      }
      SettledGrows(reg, before, added', dependencies[..i]);
      assert dependencies[..i + 1] == dependencies[..i] + [dependencies[i]];
      assert dependencies[..i + 1][..i] == dependencies[..i];
      count := count + one;
    }
    assert dependencies[..|dependencies|] == dependencies;
    err := None;
  }

  /**
   * `__create_dependencies_count`: without a reachable cycle or missing name,
   * the keys are an execution plan for the targets and each count is the
   * number of registered entries in the task's dependency list; otherwise
   * the error reported is one of those.
   */
  method CreateDependenciesCount(reg: Registry, targets: seq<TaskName>) returns (dc: DepsCount, err: Option<ResolutionError>)
    ensures err.None? <==>
      !HasReachableCycle(reg, Roots(targets)) && !HasReachableMissing(reg, Roots(targets))
    ensures err.Some? ==> ErrorSound(reg, Roots(targets), err.value)
    ensures err.None? ==> CountsRight(reg, dc) && IsExecutionPlan(reg, Roots(targets), dc.keys)
  {
    ghost var roots := Roots(targets);
    dc := DepsCount([], map[]);
    var visited: set<TaskName> := {};
    var added: set<TaskName> := {};
    for i := 0 to |targets|
      invariant CountsRight(reg, dc)
      invariant DfsInv(reg, roots, [], visited, added, dc.keys)
      invariant forall r :: r in targets[..i] ==> Settled(reg, added, r)
    {
      var e, one;
      ghost var before := added;
      one, dc, visited, added, e := CreateDepsCountRecursively(reg, roots, targets[i], dc, visited, added, []);
      if e.Some? {
        ErrorMeansCycleOrMissing(reg, roots, e.value);
        return dc, e;
      }
      SettledGrows(reg, before, added, targets[..i]);
      assert targets[..i + 1] == targets[..i] + [targets[i]];
    }
    assert targets[..|targets|] == targets;
    PlanFromSearch(reg, roots, visited, added, dc.keys);
    err := None;
  }
}
