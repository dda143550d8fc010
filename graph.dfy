/**
 * The dependency graph over registered tasks, and the depth-first search
 * that both runners (kumade/runner.py and kumade/concurrent/runner.py) use to
 * order the tasks reachable from the targets: walks, reachability, cycles,
 * missing names, and the invariant the search keeps.
 */
module Graph {
  import opened Names
  import opened Tasks
  import opened Manager

  /** The tasks of the manager, by name. */
  type Registry = map<TaskName, Task>

  /** Every task is filed under its own name. */
  ghost predicate WellKeyed(reg: Registry)
  {
    forall n :: n in reg ==> reg[n].name == n
  }

  function Last<T>(s: seq<T>): T
    requires |s| > 0
  {
    s[|s| - 1]
  }

  /** The targets of a run, as a set. */
  function Roots(targets: seq<TaskName>): set<TaskName>
  {
    set t | t in targets
  }

  /** `b` is listed among the dependencies of the registered task `a`. */
  ghost predicate Edge(reg: Registry, a: TaskName, b: TaskName)
  {
    a in reg && b in reg[a].dependencies
  }

  /** A non-empty path along dependency edges. */
  ghost predicate IsWalk(reg: Registry, w: seq<TaskName>)
  {
    |w| > 0 && forall i :: 0 <= i < |w| - 1 ==> Edge(reg, w[i], w[i + 1])
  }

  /** A walk that starts at one of the targets. */
  ghost predicate WalkFrom(reg: Registry, roots: set<TaskName>, w: seq<TaskName>)
  {
    IsWalk(reg, w) && w[0] in roots
  }

  ghost predicate Reachable(reg: Registry, roots: set<TaskName>, n: TaskName)
  {
    exists w :: WalkFrom(reg, roots, w) && Last(w) == n
  }

  /** A walk from the targets that comes back to `n`. */
  ghost predicate CycleThrough(reg: Registry, roots: set<TaskName>, n: TaskName)
  {
    exists w, j :: WalkFrom(reg, roots, w) && 0 <= j < |w| - 1 && w[j] == n && Last(w) == n
  }

  ghost predicate HasReachableCycle(reg: Registry, roots: set<TaskName>)
  {
    exists n :: CycleThrough(reg, roots, n)
  }

  /** A symbolic name, reachable from the targets, under which no task is registered. */
  ghost predicate Missing(reg: Registry, roots: set<TaskName>, n: TaskName)
  {
    n.Symbol? && n !in reg && Reachable(reg, roots, n)
  }

  ghost predicate HasReachableMissing(reg: Registry, roots: set<TaskName>)
  {
    exists n :: Missing(reg, roots, n)
  }

  /**
   * Every task in `order` is registered, and each of its dependencies either
   * comes earlier in `order` or is an unregistered path (a plain file).
   */
  ghost predicate DependenciesFirst(reg: Registry, order: seq<TaskName>)
  {
    forall i :: 0 <= i < |order| ==>
      && order[i] in reg
      && forall d :: d in reg[order[i]].dependencies ==>
           (d in reg && d in order[..i]) || (d !in reg && d.PathName?)
  }

  /**
   * `DependenciesFirst` stated the way the search builds the order, one
   * appended name at a time.
   */
  ghost predicate BuiltDependenciesFirst(reg: Registry, order: seq<TaskName>)
    decreases |order|
  {
    order == [] ||
      (var prefix := order[..|order| - 1];
       && BuiltDependenciesFirst(reg, prefix)
       && Last(order) in reg
       && forall d :: d in reg[Last(order)].dependencies ==> (d in reg && d in prefix) || (d !in reg && d.PathName?))
  }

  lemma {:induction false} BuiltGivesDependenciesFirst(reg: Registry, order: seq<TaskName>)
    requires BuiltDependenciesFirst(reg, order)
    ensures DependenciesFirst(reg, order)
    decreases |order|
  {
    if order != [] {
      var prefix := order[..|order| - 1];
      BuiltGivesDependenciesFirst(reg, prefix);
      forall i | 0 <= i < |order|
        ensures order[i] in reg &&
          forall d :: d in reg[order[i]].dependencies ==> (d in reg && d in order[..i]) || (d !in reg && d.PathName?)
      {
        if i < |prefix| {
          assert order[i] == prefix[i] && order[..i] == prefix[..i];
        } else {
          assert order[..i] == prefix;
        }
      }
    }
  }

  /**
   * An order in which to run the targets: each reachable registered task
   * exactly once, nothing else, and every dependency before its dependents.
   */
  ghost predicate IsExecutionPlan(reg: Registry, roots: set<TaskName>, order: seq<TaskName>)
  {
    && Distinct(order)
    && DependenciesFirst(reg, order)
    && forall n :: n in order <==> n in reg && Reachable(reg, roots, n)
  }

  /** The error raised while ordering the tasks, with the offending name. */
  datatype ResolutionError = CircularDependency(target: TaskName) | NotFound(target: TaskName)

  /** The reported error is real: a cycle through the name, or a missing name reachable from the targets. */
  ghost predicate ErrorSound(reg: Registry, roots: set<TaskName>, e: ResolutionError)
  {
    match e
    case CircularDependency(n) => CycleThrough(reg, roots, n)
    case NotFound(n) => Missing(reg, roots, n)
  }

  /** A sound error means there is a reachable cycle or a reachable missing name. */
  lemma ErrorMeansCycleOrMissing(reg: Registry, roots: set<TaskName>, e: ResolutionError)
    requires ErrorSound(reg, roots, e)
    ensures HasReachableCycle(reg, roots) || HasReachableMissing(reg, roots)
  {
  }

  /**
   * What the depth-first search keeps: `visited` are the registered names
   * entered so far, `added` those finished, and the ones entered but not
   * finished are exactly the current search path `stack`, a walk from a
   * target; `order` lists the finished names once each, dependencies first,
   * and all of them are reachable.
   */
  ghost predicate DfsInv(reg: Registry, roots: set<TaskName>, stack: seq<TaskName>,
                         visited: set<TaskName>, added: set<TaskName>, order: seq<TaskName>)
  {
    && added <= visited <= reg.Keys
    && visited - added == (set x | x in stack)
    && (stack != [] ==> WalkFrom(reg, roots, stack))
    && Distinct(order)
    && (set x | x in order) == added
    && BuiltDependenciesFirst(reg, order)
    && forall n :: n in added ==> Reachable(reg, roots, n)
  }

  /** A name the search is done with: a finished registered task, or an unregistered path (a plain file). */
  ghost predicate Settled(reg: Registry, added: set<TaskName>, n: TaskName)
  {
    (n in reg && n in added) || (n !in reg && n.PathName?)
  }

  /** Names settled stay settled as more tasks finish. */
  lemma SettledGrows(reg: Registry, added: set<TaskName>, more: set<TaskName>, names: seq<TaskName>)
    requires added <= more
    requires forall n :: n in names ==> Settled(reg, added, n)
    ensures forall n :: n in names ==> Settled(reg, more, n)
  {
  }

  /** How the search enters `target`: as a target itself, or as a dependency of the top of the stack. */
  ghost predicate Entry(reg: Registry, roots: set<TaskName>, stack: seq<TaskName>, target: TaskName)
  {
    if stack == [] then target in roots else Edge(reg, Last(stack), target)
  }

  /** The search path extended by the name being entered is a walk from a target. */
  lemma EnteredWalk(reg: Registry, roots: set<TaskName>, stack: seq<TaskName>, target: TaskName)
    requires stack != [] ==> WalkFrom(reg, roots, stack)
    requires Entry(reg, roots, stack, target)
    ensures WalkFrom(reg, roots, stack + [target])
  {
    var w := stack + [target];
    forall i | 0 <= i < |w| - 1
      ensures Edge(reg, w[i], w[i + 1])
    {
      if i < |stack| - 1 {
        assert w[i] == stack[i] && w[i + 1] == stack[i + 1];
      }
    }
  }

  /** Entering a registered, unvisited name keeps the invariant with the name pushed on the stack. */
  lemma PushKeepsInvariant(reg: Registry, roots: set<TaskName>, stack: seq<TaskName>,
                           visited: set<TaskName>, added: set<TaskName>, order: seq<TaskName>, target: TaskName)
    requires DfsInv(reg, roots, stack, visited, added, order)
    requires Entry(reg, roots, stack, target)
    requires target in reg && target !in visited
    ensures DfsInv(reg, roots, stack + [target], visited + {target}, added, order)
  {
    EnteredWalk(reg, roots, stack, target);
    assert (set x | x in stack + [target]) == (set x | x in stack) + {target};
  }

  /**
   * Finishing `target` once all its registered dependencies are finished keeps
   * the invariant with the name popped from the stack and appended to the order.
   */
  lemma PopKeepsInvariant(reg: Registry, roots: set<TaskName>, stack: seq<TaskName>,
                          visited: set<TaskName>, added: set<TaskName>, order: seq<TaskName>, target: TaskName)
    requires DfsInv(reg, roots, stack + [target], visited, added, order)
    requires target in reg && target !in (set x | x in stack)
    requires forall d :: d in reg[target].dependencies ==> Settled(reg, added, d)
    ensures DfsInv(reg, roots, stack, visited, added + {target}, order + [target])
  {
    var order' := order + [target];
    assert (set x | x in stack + [target]) == (set x | x in stack) + {target};
    assert target !in added;
    assert Reachable(reg, roots, target) by {
      assert Last(stack + [target]) == target;
    }
    assert (set x | x in order') == added + {target};
    assert visited - (added + {target}) == (set x | x in stack);
    if stack != [] {
      var w := stack + [target];
      assert w[0] == stack[0];
      forall i | 0 <= i < |stack| - 1
        ensures Edge(reg, stack[i], stack[i + 1])
      {
        assert w[i] == stack[i] && w[i + 1] == stack[i + 1];
      }
    }
    assert Distinct(order');
    assert order'[..|order'| - 1] == order;
  }

  /** Meeting an entered but unfinished name again closes a cycle through it. */
  lemma CycleFromStack(reg: Registry, roots: set<TaskName>, stack: seq<TaskName>,
                       visited: set<TaskName>, added: set<TaskName>, order: seq<TaskName>, target: TaskName)
    requires DfsInv(reg, roots, stack, visited, added, order)
    requires Entry(reg, roots, stack, target)
    requires target in visited && target !in added
    ensures CycleThrough(reg, roots, target)
  {
    assert target in visited - added;
    assert target in (set x | x in stack);
    var j :| 0 <= j < |stack| && stack[j] == target;
    EnteredWalk(reg, roots, stack, target);
    var w := stack + [target];
    assert w[j] == target && Last(w) == target;
  }

  /** A name the search enters is reachable from the targets. */
  lemma EnteredIsReachable(reg: Registry, roots: set<TaskName>, stack: seq<TaskName>, target: TaskName)
    requires stack != [] ==> WalkFrom(reg, roots, stack)
    requires Entry(reg, roots, stack, target)
    ensures Reachable(reg, roots, target)
  {
    EnteredWalk(reg, roots, stack, target);
    assert Last(stack + [target]) == target;
  }

  /** The position of a name in an order. */
  ghost function IndexOf(order: seq<TaskName>, n: TaskName): (i: nat)
    requires n in order
    ensures i < |order| && order[i] == n
  {
    var i :| 0 <= i < |order| && order[i] == n; i
  }

  /**
   * When the search has finished with every target, every walk from a target
   * stays among the finished names, except that it may end at an
   * unregistered path.
   */
  lemma {:induction false} WalkStaysInOrder(reg: Registry, roots: set<TaskName>, added: set<TaskName>,
                                            order: seq<TaskName>, w: seq<TaskName>, k: nat)
    requires (set x | x in order) == added && DependenciesFirst(reg, order)
    requires forall r :: r in roots ==> Settled(reg, added, r)
    requires WalkFrom(reg, roots, w) && k < |w|
    ensures w[k] in added || (w[k] !in reg && w[k].PathName? && k == |w| - 1)
  {
    if k > 0 {
      WalkStaysInOrder(reg, roots, added, order, w, k - 1);
      assert Edge(reg, w[k - 1], w[k]);
      var i := IndexOf(order, w[k - 1]);
      assert w[k] in reg[order[i]].dependencies;
      if w[k] in reg {
        assert w[k] in order[..i];
      }
    }
    if k < |w| - 1 {
      assert Edge(reg, w[k], w[k + 1]);
    }
  }

  /** Along a walk through the order, positions strictly decrease. */
  lemma {:induction false} IndexDecreases(reg: Registry, order: seq<TaskName>, w: seq<TaskName>, j: nat, k: nat)
    requires Distinct(order) && DependenciesFirst(reg, order)
    requires IsWalk(reg, w) && j < k < |w|
    requires forall m :: 0 <= m < |w| ==> w[m] in order
    ensures IndexOf(order, w[k]) < IndexOf(order, w[j])
  {
    var i := IndexOf(order, w[k - 1]);
    assert Edge(reg, w[k - 1], w[k]);
    assert w[k] in order[..i];
    var m :| 0 <= m < i && order[..i][m] == w[k];
    assert IndexOf(order, w[k]) == m;
    if j < k - 1 {
      IndexDecreases(reg, order, w, j, k - 1);
    }
  }

  /**
   * When the search finishes every target without an error, there is no
   * reachable cycle, no reachable missing name, and the order is an
   * execution plan.
   */
  lemma PlanFromSearch(reg: Registry, roots: set<TaskName>, visited: set<TaskName>,
                       added: set<TaskName>, order: seq<TaskName>)
    requires DfsInv(reg, roots, [], visited, added, order)
    requires forall r :: r in roots ==> Settled(reg, added, r)
    ensures !HasReachableCycle(reg, roots)
    ensures !HasReachableMissing(reg, roots)
    ensures IsExecutionPlan(reg, roots, order)
  {
    BuiltGivesDependenciesFirst(reg, order);
    if HasReachableCycle(reg, roots) {
      var n :| CycleThrough(reg, roots, n);
      var w, j :| WalkFrom(reg, roots, w) && 0 <= j < |w| - 1 && w[j] == n && Last(w) == n;
      forall m | 0 <= m < |w|
        ensures w[m] in order
      {
        WalkStaysInOrder(reg, roots, added, order, w, m);
        if m == |w| - 1 {
          WalkStaysInOrder(reg, roots, added, order, w, j);
        }
      }
      IndexDecreases(reg, order, w, j, |w| - 1);
      assert false;
    }
    if HasReachableMissing(reg, roots) {
      var n :| Missing(reg, roots, n);
      var w :| WalkFrom(reg, roots, w) && Last(w) == n;
      WalkStaysInOrder(reg, roots, added, order, w, |w| - 1);
      assert false;
    }
    forall n | n in reg && Reachable(reg, roots, n)
      ensures n in order
    {
      var w :| WalkFrom(reg, roots, w) && Last(w) == n;
      WalkStaysInOrder(reg, roots, added, order, w, |w| - 1);
    }
  }

  /** Removing more elements leaves no more. */
  lemma NoLargerRemainder(keys: set<TaskName>, visited: set<TaskName>, more: set<TaskName>)
    requires visited <= more
    ensures |keys - more| <= |keys - visited|
  {
    var big := keys - visited;
    var small := keys - more;
    assert big == small + (big - small);
    assert small * (big - small) == {};
  }

  /** Removing more elements leaves strictly fewer when the extra one was there. */
  lemma SmallerRemainder(keys: set<TaskName>, visited: set<TaskName>, more: set<TaskName>, x: TaskName)
    requires visited + {x} <= more && x in keys && x !in visited
    ensures |keys - more| < |keys - visited|
  {
    var big := keys - visited;
    var small := keys - more;
    assert small <= big && x in big && x !in small;
    assert big == small + (big - small);
    assert small * (big - small) == {};
    assert |big - small| >= 1 by {
      assert x in big - small;
    }
  }
}
