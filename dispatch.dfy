/**
 * The dispatch loop of the concurrent runner (`__dispatch_tasks` in
 * kumade/concurrent/runner.py) as a sequential state machine. Each round
 * sends every pending task whose count is zero, waits for one completion,
 * and lowers the counts of the pending tasks that depend on the completed
 * one. Which in-flight task completes next is chosen by `pick`, standing for
 * the scheduling of the worker processes; which tasks fail is `failing`.
 *
 * The source lowers a count by one when the completed name occurs in the
 * dependency list (`ByMembership`), although the count added one for every
 * occurrence. `DispatchTasks` follows the source. The invariants of the
 * loop are proved for both rules; only the decrement by occurrences
 * (`ByOccurrences`) never blocks, and the two rules agree when no pending
 * task lists a dependency twice.
 */
module Dispatch {
  import opened Wrappers
  import opened Names
  import opened Procedures
  import opened Tasks
  import opened Manager
  import opened Graph
  import opened DependencyCount

  /** How a completion lowers the counts. */
  datatype Rule = ByMembership | ByOccurrences

  /** How many entries of `s` are `x`. */
  function Occurrences(x: TaskName, s: seq<TaskName>): nat
    decreases |s|
  {
    if s == [] then 0 else Occurrences(x, s[..|s| - 1]) + (if Last(s) == x then 1 else 0)
  }

  /** By how much the completion of `c` lowers the count of a task with dependency list `deps`. */
  function Decrement(rule: Rule, c: TaskName, deps: seq<TaskName>): nat
  {
    match rule
    case ByMembership => if c in deps then 1 else 0
    case ByOccurrences => Occurrences(c, deps)
  }

  /** The entries of `deps` that are registered tasks not yet completed, repeats included. */
  function Remaining(deps: seq<TaskName>, reg: Registry, done: set<TaskName>): nat
    decreases |deps|
  {
    if deps == [] then 0
    else Remaining(deps[..|deps| - 1], reg, done) + (if Last(deps) in reg && Last(deps) !in done then 1 else 0)
  }

  predicate IsReady(count: map<TaskName, int>, n: TaskName)
  {
    n in count && count[n] == 0
  }

  /** The keys whose count is zero, in order: the tasks sent in this round. */
  function ReadyOf(keys: seq<TaskName>, count: map<TaskName, int>): seq<TaskName>
    decreases |keys|
  {
    if keys == [] then []
    else ReadyOf(keys[..|keys| - 1], count) + (if IsReady(count, Last(keys)) then [Last(keys)] else [])
  }

  /** The keys whose count is not zero, in order: the tasks still pending after this round. */
  function WaitingOf(keys: seq<TaskName>, count: map<TaskName, int>): seq<TaskName>
    decreases |keys|
  {
    if keys == [] then []
    else WaitingOf(keys[..|keys| - 1], count) + (if IsReady(count, Last(keys)) then [] else [Last(keys)])
  }

  /** The counts after the completion of `c`, updated key by key in order. */
  function DecrementAll(keys: seq<TaskName>, count: map<TaskName, int>, c: TaskName, reg: Registry, rule: Rule): map<TaskName, int>
    decreases |keys|
  {
    if keys == [] then count
    else
      var k := Last(keys);
      var m := DecrementAll(keys[..|keys| - 1], count, c, reg, rule);
      if k in m && k in reg then m[k := m[k] - Decrement(rule, c, reg[k].dependencies)] else m
  }

  /** The pending counts, the tasks sent but not completed, and the number of completions still awaited. */
  datatype State = State(dc: DepsCount, inFlight: seq<TaskName>, rest: nat)

  datatype Event = Sent(target: TaskName) | Completed(target: TaskName)

  /** `Blocked`: tasks are outstanding but none is in flight, so waiting for a completion never ends. */
  datatype Outcome = AllCompleted | Failed(target: TaskName) | Blocked

  datatype Dispatched = Dispatched(outcome: Outcome, trace: seq<Event>)

  function SentEvents(names: seq<TaskName>): (t: seq<Event>)
    ensures |t| == |names| && forall i :: 0 <= i < |t| ==> t[i] == Sent(names[i])
  {
    seq(|names|, i requires 0 <= i < |names| => Sent(names[i]))
  }

  /** Sending: the ready tasks leave the counts and join the in-flight ones. */
  function Release(s: State): State
  {
    var ready := ReadyOf(s.dc.keys, s.dc.count);
    State(DepsCount(WaitingOf(s.dc.keys, s.dc.count), s.dc.count - (set r | r in ready)), s.inFlight + ready, s.rest)
  }

  /** The in-flight task at `j` completes: the counts are lowered and one completion fewer is awaited. */
  function Finish(reg: Registry, s: State, j: nat, rule: Rule): State
    requires j < |s.inFlight| && s.rest > 0
  {
    var c := s.inFlight[j];
    State(DepsCount(s.dc.keys, DecrementAll(s.dc.keys, s.dc.count, c, reg, rule)),
          s.inFlight[..j] + s.inFlight[j + 1..], s.rest - 1)
  }

  /** The dispatch loop from state `s`, the `step`-th completion being chosen by `pick(step)`. */
  function Run(reg: Registry, s: State, failing: set<TaskName>, pick: nat -> nat, rule: Rule, step: nat): Dispatched
    decreases s.rest
  {
    if s.rest == 0 then Dispatched(AllCompleted, [])
    else
      var s1 := Release(s);
      var sent := SentEvents(ReadyOf(s.dc.keys, s.dc.count));
      if s1.inFlight == [] then Dispatched(Blocked, sent)
      else
        var j := pick(step) % |s1.inFlight|;
        var c := s1.inFlight[j];
        if c in failing then Dispatched(Failed(c), sent + [Completed(c)])
        else
          var r := Run(reg, Finish(reg, s1, j, rule), failing, pick, rule, step + 1);
          Dispatched(r.outcome, sent + [Completed(c)] + r.trace)
  }

  /** The state the loop starts from: all counts pending, nothing in flight. */
  function Initial(dc: DepsCount): State
  {
    State(dc, [], |dc.keys|)
  }

  /** Every registered dependency of `n` has completed. */
  ghost predicate DepsDone(reg: Registry, n: TaskName, done: set<TaskName>)
    requires n in reg
  {
    forall d :: d in reg[n].dependencies && d in reg ==> d in done
  }

  /** The tasks the loop still has to complete: the pending and the in-flight ones. */
  function Outstanding(s: State): set<TaskName>
  {
    (set n | n in s.dc.keys) + (set n | n in s.inFlight)
  }

  function CompletedIn(t: seq<Event>): set<TaskName>
  {
    set e | e in t && e.Completed? :: e.target
  }

  function SentIn(t: seq<Event>): set<TaskName>
  {
    set e | e in t && e.Sent? :: e.target
  }

  /**
   * How a pending task's count stands to its registered dependencies not yet
   * completed: equal under the decrement by occurrences; never smaller under
   * the decrement by membership, which lowers it too little when a
   * dependency is listed twice.
   */
  predicate Fits(rule: Rule, count: int, remaining: nat)
  {
    match rule
    case ByOccurrences => count == remaining
    case ByMembership => count >= remaining
  }

  /** Pending and in-flight tasks are kept apart, each without repetition. */
  ghost predicate Apart(s: State)
  {
    Distinct(s.dc.keys) && Distinct(s.inFlight) && forall n :: n in s.dc.keys ==> n !in s.inFlight
  }

  /**
   * The invariant of the loop, for an execution plan `plan` whose tasks in
   * `done` have completed: every task of the plan is pending, in flight or
   * done, and only one of these; a pending task's count fits the number of
   * its registered dependencies not yet done; an in-flight task has all its
   * registered dependencies done; `rest` counts the pending and in-flight tasks.
   */
  ghost predicate Inv(reg: Registry, plan: seq<TaskName>, s: State, done: set<TaskName>, rule: Rule)
  {
    && Distinct(plan) && DependenciesFirst(reg, plan)
    && Apart(s)
    && (forall n :: n in s.dc.keys ==> n in plan && n !in done)
    && (forall n :: n in s.inFlight ==> n !in done)
    && (forall n :: n in plan ==> n in s.dc.keys || n in s.inFlight || n in done)
    && (forall n :: n in s.dc.count <==> n in s.dc.keys)
    && (forall n :: n in s.dc.keys ==> n in reg && Fits(rule, s.dc.count[n], Remaining(reg[n].dependencies, reg, done)))
    && (forall n :: n in s.inFlight ==> n in reg && DepsDone(reg, n, done))
    && s.rest == |s.dc.keys| + |s.inFlight|
  }

  lemma DistinctSnoc<T>(s: seq<T>, x: T)
    ensures Distinct(s + [x]) <==> Distinct(s) && x !in s
  {
    if Distinct(s + [x]) {
      assert s == (s + [x])[..|s|];
      forall i | 0 <= i < |s|
        ensures s[i] != x
      {
        assert (s + [x])[i] == s[i] && (s + [x])[|s|] == x;
      }
    }
  }

  /** The ready and the waiting keys split the keys. */
  lemma {:induction false} FilterFacts(keys: seq<TaskName>, count: map<TaskName, int>)
    ensures |ReadyOf(keys, count)| + |WaitingOf(keys, count)| == |keys|
    ensures forall n :: n in ReadyOf(keys, count) <==> n in keys && IsReady(count, n)
    ensures forall n :: n in WaitingOf(keys, count) <==> n in keys && !IsReady(count, n)
    ensures Distinct(keys) ==> Distinct(ReadyOf(keys, count)) && Distinct(WaitingOf(keys, count))
    decreases |keys|
  {
    if keys != [] {
      var p := keys[..|keys| - 1];
      var k := Last(keys);
      FilterFacts(p, count);
      assert keys == p + [k];
      DistinctSnoc(p, k);
      DistinctSnoc(ReadyOf(p, count), k);
      DistinctSnoc(WaitingOf(p, count), k);
    }
  }

  /** Lowering the counts touches each registered key once, and nothing else. */
  lemma {:induction false} DecrementAllAt(keys: seq<TaskName>, count: map<TaskName, int>, c: TaskName, reg: Registry, rule: Rule)
    requires Distinct(keys)
    ensures forall n :: n in DecrementAll(keys, count, c, reg, rule) <==> n in count
    ensures forall n :: n in count ==>
      DecrementAll(keys, count, c, reg, rule)[n] ==
        if n in keys && n in reg then count[n] - Decrement(rule, c, reg[n].dependencies) else count[n]
    decreases |keys|
  {
    if keys != [] {
      var p := keys[..|keys| - 1];
      assert keys == p + [Last(keys)];
      DistinctSnoc(p, Last(keys));
      DecrementAllAt(p, count, c, reg, rule);
    }
  }

  /** Removing the entry at `j` from a sequence without repetitions. */
  lemma RemoveAt(s: seq<TaskName>, j: nat)
    requires Distinct(s) && j < |s|
    ensures Distinct(s[..j] + s[j + 1..])
    ensures forall n :: n in s[..j] + s[j + 1..] <==> n in s && n != s[j]
  {
    var r := s[..j] + s[j + 1..];
    assert forall i :: 0 <= i < |r| ==> r[i] == if i < j then s[i] else s[i + 1];
    forall n | n in s && n != s[j]
      ensures n in r
    {
      var i :| 0 <= i < |s| && s[i] == n;
      assert r[if i < j then i else i - 1] == n;
    }
  }

  /** Completing a registered task lowers the remaining count by its occurrences. */
  lemma {:induction false} RemainingAfter(deps: seq<TaskName>, reg: Registry, done: set<TaskName>, c: TaskName)
    requires c in reg && c !in done
    ensures Remaining(deps, reg, done) == Remaining(deps, reg, done + {c}) + Occurrences(c, deps)
    decreases |deps|
  {
    if deps != [] {
      RemainingAfter(deps[..|deps| - 1], reg, done, c);
    }
  }

  /** Nothing remains exactly when every registered dependency is done. */
  lemma {:induction false} RemainingZero(deps: seq<TaskName>, reg: Registry, done: set<TaskName>)
    ensures Remaining(deps, reg, done) == 0 <==> forall d :: d in deps && d in reg ==> d in done
    decreases |deps|
  {
    if deps != [] {
      var p := deps[..|deps| - 1];
      RemainingZero(p, reg, done);
      assert deps == p + [Last(deps)];
    }
  }

  /** Before any completion, what remains is what the count search recorded. */
  lemma {:induction false} RemainingInitially(deps: seq<TaskName>, reg: Registry)
    ensures Remaining(deps, reg, {}) == RegisteredCount(deps, reg)
    decreases |deps|
  {
    if deps != [] {
      RemainingInitially(deps[..|deps| - 1], reg);
    }
  }

  /** Sending the ready tasks keeps the invariant. */
  lemma ReleaseKeeps(reg: Registry, plan: seq<TaskName>, s: State, done: set<TaskName>, rule: Rule)
    requires Inv(reg, plan, s, done, rule)
    ensures Inv(reg, plan, Release(s), done, rule)
  {
    ReleaseShape(s);
    ReadyDepsDone(reg, plan, s, done, rule);
    var s1 := Release(s);
    forall n | n in s1.dc.keys
      ensures n in s1.dc.count && n in reg && Fits(rule, s1.dc.count[n], Remaining(reg[n].dependencies, reg, done))
    {
      assert s1.dc.count[n] == s.dc.count[n];
    }
    forall n | n in s1.inFlight
      ensures n !in done && n in reg && DepsDone(reg, n, done)
    {
    }
    forall n | n in plan
      ensures n in s1.dc.keys || n in s1.inFlight || n in done
    {
    }
    assert s1.rest == |s1.dc.keys| + |s1.inFlight| by {
      FilterFacts(s.dc.keys, s.dc.count);
    }
  }

  /** The earliest task of the plan among those in `pending`. */
  lemma {:induction false} FirstOfPlan(plan: seq<TaskName>, pending: set<TaskName>, n: TaskName)
    requires n in plan && n in pending
    ensures exists i :: 0 <= i < |plan| && plan[i] in pending && forall k :: 0 <= k < i ==> plan[k] !in pending
    decreases |plan|
  {
    if plan[0] !in pending {
      FirstOfPlan(plan[1..], pending, n);
      var i :| 0 <= i < |plan[1..]| && plan[1..][i] in pending && forall k :: 0 <= k < i ==> plan[1..][k] !in pending;
      assert forall k :: 0 < k < i + 1 ==> plan[k] == plan[1..][k - 1];
    }
  }

  /**
   * When every task of the plan is pending or done, the earliest pending task
   * of the plan has all its registered dependencies done, so its count is zero.
   */
  lemma EarliestPendingIsReady(reg: Registry, plan: seq<TaskName>, keys: seq<TaskName>,
                               count: map<TaskName, int>, done: set<TaskName>)
    requires DependenciesFirst(reg, plan) && keys != []
    requires forall n :: n in keys ==> n in plan
    requires forall n :: n in plan ==> n in keys || n in done
    requires forall n :: n in keys ==> n in reg && n in count && count[n] == Remaining(reg[n].dependencies, reg, done)
    ensures exists n :: n in keys && IsReady(count, n)
  {
    var pending := set n | n in keys;
    FirstOfPlan(plan, pending, keys[0]);
    var i :| 0 <= i < |plan| && plan[i] in pending && forall k :: 0 <= k < i ==> plan[k] !in pending;
    var n := plan[i];
    forall d | d in reg[n].dependencies && d in reg
      ensures d in done
    {
      assert d in plan[..i];
    }
    RemainingZero(reg[n].dependencies, reg, done);
  }

  /** While tasks are outstanding, a round always leaves something in flight. */
  lemma ReleaseSendsSomething(reg: Registry, plan: seq<TaskName>, s: State, done: set<TaskName>)
    requires Inv(reg, plan, s, done, ByOccurrences) && s.rest > 0
    ensures Release(s).inFlight != []
  {
    if s.inFlight == [] {
      EarliestPendingIsReady(reg, plan, s.dc.keys, s.dc.count, done);
      var n :| n in s.dc.keys && IsReady(s.dc.count, n);
      FilterFacts(s.dc.keys, s.dc.count);
      assert n in ReadyOf(s.dc.keys, s.dc.count);
    }
  }

  /** A name occurs in a list exactly when it occurs there at least once. */
  lemma {:induction false} OccursExactlyWhenMember(c: TaskName, deps: seq<TaskName>)
    ensures c in deps <==> Occurrences(c, deps) > 0
    decreases |deps|
  {
    if deps != [] {
      var p := deps[..|deps| - 1];
      assert deps == p + [Last(deps)];
      OccursExactlyWhenMember(c, p);
    }
  }

  /** Lowering the counts of the pending tasks after `c` completes keeps them fitting. */
  lemma FinishCounts(reg: Registry, keys: seq<TaskName>, count: map<TaskName, int>, done: set<TaskName>, c: TaskName, rule: Rule)
    requires Distinct(keys) && c in reg && c !in done
    requires forall n :: n in count <==> n in keys
    requires forall n :: n in keys ==> n in reg && Fits(rule, count[n], Remaining(reg[n].dependencies, reg, done))
    ensures var m := DecrementAll(keys, count, c, reg, rule);
      && (forall n :: n in m <==> n in keys)
      && forall n :: n in keys ==> Fits(rule, m[n], Remaining(reg[n].dependencies, reg, done + {c}))
  {
    DecrementAllAt(keys, count, c, reg, rule);
    forall n | n in keys
      ensures Fits(rule, count[n] - Decrement(rule, c, reg[n].dependencies), Remaining(reg[n].dependencies, reg, done + {c}))
    {
      RemainingAfter(reg[n].dependencies, reg, done, c);
      OccursExactlyWhenMember(c, reg[n].dependencies);
    }
  }

  /** Completing an in-flight task keeps the invariant. */
  lemma FinishKeeps(reg: Registry, plan: seq<TaskName>, s: State, done: set<TaskName>, j: nat, rule: Rule)
    requires Inv(reg, plan, s, done, rule) && j < |s.inFlight|
    ensures s.rest > 0
    ensures Inv(reg, plan, Finish(reg, s, j, rule), done + {s.inFlight[j]}, rule)
  {
    var c := s.inFlight[j];
    FinishShape(reg, s, j, rule);
    FinishCounts(reg, s.dc.keys, s.dc.count, done, c, rule);
    var s2 := Finish(reg, s, j, rule);
    forall n | n in s2.inFlight
      ensures n !in done + {c} && n in reg && DepsDone(reg, n, done + {c})
    {
    }
    forall n | n in plan
      ensures n in s2.dc.keys || n in s2.inFlight || n in done + {c}
    {
    }
    assert |s2.inFlight| == |s.inFlight| - 1;
  }

  /** The counts the search records, with nothing in flight, satisfy the invariant. */
  lemma InitialInv(reg: Registry, roots: set<TaskName>, dc: DepsCount, rule: Rule)
    requires CountsRight(reg, dc) && IsExecutionPlan(reg, roots, dc.keys)
    ensures Inv(reg, dc.keys, Initial(dc), {}, rule)
  {
    forall n | n in dc.keys
      ensures dc.count[n] == Remaining(reg[n].dependencies, reg, {})
    {
      RemainingInitially(reg[n].dependencies, reg);
    }
  }

  lemma SentEventsIn(names: seq<TaskName>)
    ensures SentIn(SentEvents(names)) == (set n | n in names)
    ensures CompletedIn(SentEvents(names)) == {}
  {
    forall n | n in names
      ensures n in SentIn(SentEvents(names))
    {
      var k :| 0 <= k < |names| && names[k] == n;
      assert SentEvents(names)[k] == Sent(n);
    }
  }

  /** The events of one round followed by those of the later rounds. */
  function Round(sent: seq<TaskName>, c: TaskName, later: seq<Event>): seq<Event>
  {
    SentEvents(sent) + [Completed(c)] + later
  }

  lemma RoundWhole(sent: seq<TaskName>, c: TaskName, later: seq<Event>)
    ensures SentIn(Round(sent, c, later)) == (set n | n in sent) + SentIn(later)
    ensures CompletedIn(Round(sent, c, later)) == {c} + CompletedIn(later)
  {
    var t := Round(sent, c, later);
    forall e | e in t
      ensures e in SentEvents(sent) || e == Completed(c) || e in later
    {
    }
    forall n | n in sent
      ensures n in SentIn(t)
    {
      var k :| 0 <= k < |sent| && sent[k] == n;
      assert t[k] == Sent(n);
    }
    assert t[|sent|] == Completed(c);
    forall e | e in later
      ensures e in t
    {
      var k :| 0 <= k < |later| && later[k] == e;
      assert t[|sent| + 1 + k] == e;
    }
  }

  /** The event at `i` of a round, and what was sent and completed before it. */
  lemma RoundAt(sent: seq<TaskName>, c: TaskName, later: seq<Event>, i: nat)
    requires i < |Round(sent, c, later)|
    ensures var t := Round(sent, c, later);
      && (i < |sent| ==>
            t[i] == Sent(sent[i]) && CompletedIn(t[..i]) == {} && SentIn(t[..i]) == (set n | n in sent[..i]))
      && (i == |sent| ==>
            t[i] == Completed(c) && CompletedIn(t[..i]) == {} && SentIn(t[..i]) == (set n | n in sent))
      && (i > |sent| ==>
            && t[i] == later[i - |sent| - 1]
            && CompletedIn(t[..i]) == {c} + CompletedIn(later[..i - |sent| - 1])
            && SentIn(t[..i]) == (set n | n in sent) + SentIn(later[..i - |sent| - 1]))
  {
    var t := Round(sent, c, later);
    if i <= |sent| {
      assert t[..i] == SentEvents(sent[..i]);
      SentEventsIn(sent[..i]);
      if i == |sent| {
        assert sent[..i] == sent;
      }
    } else {
      var later' := later[..i - |sent| - 1];
      assert t[..i] == Round(sent, c, later');
      RoundWhole(sent, c, later');
    }
  }

  /** One round keeps the invariant. */
  lemma RoundKeeps(reg: Registry, plan: seq<TaskName>, s: State, done: set<TaskName>, j: nat, rule: Rule)
    requires Inv(reg, plan, s, done, rule) && j < |Release(s).inFlight|
    ensures s.rest > 0
    ensures Inv(reg, plan, Finish(reg, Release(s), j, rule), done + {Release(s).inFlight[j]}, rule)
  {
    ReleaseKeeps(reg, plan, s, done, rule);
    FinishKeeps(reg, plan, Release(s), done, j, rule);
  }

  /** Sending moves exactly the ready keys from pending to in flight. */
  lemma ReleaseShape(s: State)
    requires Apart(s)
    ensures var ready := ReadyOf(s.dc.keys, s.dc.count);
      var s1 := Release(s);
      && Apart(s1) && Distinct(ready)
      && (forall n :: n in ready <==> n in s.dc.keys && IsReady(s.dc.count, n))
      && (forall n :: n in s1.dc.keys <==> n in s.dc.keys && !IsReady(s.dc.count, n))
      && (forall n :: n in s1.inFlight <==> n in s.inFlight || n in ready)
      && Outstanding(s1) == Outstanding(s)
  {
    var ready := ReadyOf(s.dc.keys, s.dc.count);
    FilterFacts(s.dc.keys, s.dc.count);
    var s1 := Release(s);
    forall i, k | 0 <= i < k < |s1.inFlight|
      ensures s1.inFlight[i] != s1.inFlight[k]
    {
      if k >= |s.inFlight| && i < |s.inFlight| {
        assert s1.inFlight[k] in ready;
      }
    }
  }

  /** Completing the in-flight task at `j` removes it, and only it, from the outstanding tasks. */
  lemma FinishShape(reg: Registry, s: State, j: nat, rule: Rule)
    requires Apart(s) && j < |s.inFlight| && s.rest > 0
    ensures var c := s.inFlight[j];
      var s2 := Finish(reg, s, j, rule);
      && Apart(s2)
      && (forall n :: n in s2.inFlight <==> n in s.inFlight && n != c)
      && c !in Outstanding(s2) && Outstanding(s2) + {c} == Outstanding(s)
  {
    RemoveAt(s.inFlight, j);
  }

  /** A pending task whose count is zero has all its registered dependencies done. */
  lemma ReadyDepsDone(reg: Registry, plan: seq<TaskName>, s: State, done: set<TaskName>, rule: Rule)
    requires Inv(reg, plan, s, done, rule)
    ensures forall n :: n in s.dc.keys && IsReady(s.dc.count, n) ==> n in reg && DepsDone(reg, n, done)
  {
    forall n | n in s.dc.keys && IsReady(s.dc.count, n)
      ensures n in reg && DepsDone(reg, n, done)
    {
      assert Fits(rule, 0, Remaining(reg[n].dependencies, reg, done));
      RemainingZero(reg[n].dependencies, reg, done);
    }
  }

  /** What one round sends and completes. */
  lemma RoundMoves(reg: Registry, s: State, done: set<TaskName>, j: nat, rule: Rule)
    requires Apart(s)
    requires forall n :: n in s.dc.keys && IsReady(s.dc.count, n) ==> n in reg && DepsDone(reg, n, done)
    requires j < |Release(s).inFlight| && s.rest > 0
    ensures var ready := ReadyOf(s.dc.keys, s.dc.count);
      var s1 := Release(s);
      var c := s1.inFlight[j];
      var s2 := Finish(reg, s1, j, rule);
      && Distinct(ready)
      && (c in s.inFlight || c in ready)
      && (forall n :: n in ready ==> n in s.dc.keys && n in reg && DepsDone(reg, n, done))
      && (forall n :: n in s2.dc.keys ==> n in s.dc.keys && n !in ready)
      && (forall n :: n in s2.inFlight ==> n in s.inFlight || n in ready)
      && c !in Outstanding(s2) && Outstanding(s2) + {c} == Outstanding(s)
  {
    ReleaseShape(s);
    FinishShape(reg, Release(s), j, rule);
  }

  /**
   * The loop ends with every outstanding task completed and none of them
   * failing, with the failure of an outstanding task that fails, or blocked;
   * with the decrement by occurrences it never blocks.
   */
  lemma {:induction false} DispatchEnds(reg: Registry, plan: seq<TaskName>, s: State, done: set<TaskName>,
                                        failing: set<TaskName>, pick: nat -> nat, rule: Rule, step: nat)
    requires Inv(reg, plan, s, done, rule)
    ensures var r := Run(reg, s, failing, pick, rule, step);
      && (rule == ByOccurrences ==> r.outcome != Blocked)
      && (r.outcome.Failed? ==> r.outcome.target in failing && r.outcome.target in Outstanding(s))
      && (r.outcome == AllCompleted ==> CompletedIn(r.trace) == Outstanding(s))
      && (r.outcome == AllCompleted ==> CompletedIn(r.trace) * failing == {})
    decreases s.rest
  {
    if s.rest == 0 {
      assert s.dc.keys == [] && s.inFlight == [];
    } else {
      if rule == ByOccurrences {
        ReleaseSendsSomething(reg, plan, s, done);
      }
      var s1 := Release(s);
      if s1.inFlight != [] {
        var j := pick(step) % |s1.inFlight|;
        var c := s1.inFlight[j];
        ReadyDepsDone(reg, plan, s, done, rule);
        RoundMoves(reg, s, done, j, rule);
        if c !in failing {
          RoundKeeps(reg, plan, s, done, j, rule);
          var s2 := Finish(reg, s1, j, rule);
          DispatchEnds(reg, plan, s2, done + {c}, failing, pick, rule, step + 1);
          RoundWhole(ReadyOf(s.dc.keys, s.dc.count), c, Run(reg, s2, failing, pick, rule, step + 1).trace);
        }
      }
    }
  }

  /** In trace `t`, begun with the tasks in `done` completed, every task is sent after its registered dependencies completed. */
  ghost predicate SentAfterDeps(reg: Registry, done: set<TaskName>, t: seq<Event>)
  {
    forall i :: 0 <= i < |t| && t[i].Sent? ==>
      t[i].target in reg && DepsDone(reg, t[i].target, done + CompletedIn(t[..i]))
  }

  lemma RoundSentAfterDeps(reg: Registry, done: set<TaskName>, ready: seq<TaskName>, c: TaskName, later: seq<Event>)
    requires forall n :: n in ready ==> n in reg && DepsDone(reg, n, done)
    requires SentAfterDeps(reg, done + {c}, later)
    ensures SentAfterDeps(reg, done, Round(ready, c, later))
  {
    var t := Round(ready, c, later);
    forall i | 0 <= i < |t| && t[i].Sent?
      ensures t[i].target in reg && DepsDone(reg, t[i].target, done + CompletedIn(t[..i]))
    {
      RoundAt(ready, c, later, i);
      if i > |ready| {
        assert done + CompletedIn(t[..i]) == (done + {c}) + CompletedIn(later[..i - |ready| - 1]);
      }
    }
  }

  /**
   * A task is sent only once all its registered dependencies have completed,
   * whether before the loop (`done`) or earlier in the trace.
   */
  lemma {:induction false} SentAfterDependencies(reg: Registry, plan: seq<TaskName>, s: State, done: set<TaskName>,
                                                 failing: set<TaskName>, pick: nat -> nat, rule: Rule, step: nat)
    requires Inv(reg, plan, s, done, rule)
    ensures SentAfterDeps(reg, done, Run(reg, s, failing, pick, rule, step).trace)
    decreases s.rest
  {
    if s.rest > 0 {
      var ready := ReadyOf(s.dc.keys, s.dc.count);
      var s1 := Release(s);
      if s1.inFlight == [] {
        assert ready == [];
      } else {
        var j := pick(step) % |s1.inFlight|;
        var c := s1.inFlight[j];
        ReadyDepsDone(reg, plan, s, done, rule);
        RoundMoves(reg, s, done, j, rule);
        var later := [];
        if c !in failing {
          RoundKeeps(reg, plan, s, done, j, rule);
          var s2 := Finish(reg, s1, j, rule);
          SentAfterDependencies(reg, plan, s2, done + {c}, failing, pick, rule, step + 1);
          later := Run(reg, s2, failing, pick, rule, step + 1).trace;
        }
        assert Run(reg, s, failing, pick, rule, step).trace == Round(ready, c, later);
        RoundSentAfterDeps(reg, done, ready, c, later);
      }
    }
  }

  /**
   * In trace `t`, begun with the tasks `flying` in flight, no task is sent
   * twice or completed twice, and a task completes only if it was in flight
   * or sent before.
   */
  ghost predicate EachOnce(flying: set<TaskName>, t: seq<Event>)
  {
    forall i :: 0 <= i < |t| ==>
      && (t[i].Sent? ==> t[i].target !in SentIn(t[..i]))
      && (t[i].Completed? ==>
            t[i].target !in CompletedIn(t[..i]) && (t[i].target in flying || t[i].target in SentIn(t[..i])))
  }

  /**
   * `EachOnce`, with only tasks of `pending` sent and only tasks of
   * `pending` or `flying` completed.
   */
  ghost predicate OnceFrom(pending: set<TaskName>, flying: set<TaskName>, t: seq<Event>)
  {
    && SentIn(t) <= pending
    && CompletedIn(t) <= pending + flying
    && EachOnce(flying, t)
  }

  lemma RoundOnce(pending: set<TaskName>, flying: set<TaskName>, ready: seq<TaskName>, c: TaskName, later: seq<Event>,
                  pending': set<TaskName>, flying': set<TaskName>)
    requires Distinct(ready) && (forall n :: n in ready ==> n in pending) && (c in flying || c in ready)
    requires forall n :: n in pending' ==> n in pending && n !in ready
    requires forall n :: n in flying' ==> n in flying || n in ready
    requires c !in pending' + flying'
    requires OnceFrom(pending', flying', later)
    ensures OnceFrom(pending, flying, Round(ready, c, later))
  {
    var t := Round(ready, c, later);
    RoundWhole(ready, c, later);
    forall i | 0 <= i < |t|
      ensures t[i].Sent? ==> t[i].target !in SentIn(t[..i])
      ensures t[i].Completed? ==>
        t[i].target !in CompletedIn(t[..i]) && (t[i].target in flying || t[i].target in SentIn(t[..i]))
    {
      RoundAt(ready, c, later, i);
      if i > |ready| {
        var k := i - |ready| - 1;
        assert later[k] in later;
      }
    }
  }

  /**
   * Every task is sent at most once and completed at most once, only pending
   * tasks are sent, only outstanding tasks complete, and a task completes
   * only if it was in flight at the start or sent before.
   */
  lemma {:induction false} EachTaskOnce(reg: Registry, plan: seq<TaskName>, s: State, done: set<TaskName>,
                                        failing: set<TaskName>, pick: nat -> nat, rule: Rule, step: nat)
    requires Inv(reg, plan, s, done, rule)
    ensures OnceFrom((set n | n in s.dc.keys), (set n | n in s.inFlight), Run(reg, s, failing, pick, rule, step).trace)
    decreases s.rest
  {
    if s.rest > 0 {
      var ready := ReadyOf(s.dc.keys, s.dc.count);
      var s1 := Release(s);
      if s1.inFlight == [] {
        assert ready == [];
      } else {
        var j := pick(step) % |s1.inFlight|;
        var c := s1.inFlight[j];
        ReadyDepsDone(reg, plan, s, done, rule);
        RoundMoves(reg, s, done, j, rule);
        var later := [];
        var pending', flying' := {}, {};
        if c !in failing {
          RoundKeeps(reg, plan, s, done, j, rule);
          var s2 := Finish(reg, s1, j, rule);
          EachTaskOnce(reg, plan, s2, done + {c}, failing, pick, rule, step + 1);
          later := Run(reg, s2, failing, pick, rule, step + 1).trace;
          pending', flying' := (set n | n in s2.dc.keys), (set n | n in s2.inFlight);
        }
        assert Run(reg, s, failing, pick, rule, step).trace == Round(ready, c, later);
        RoundOnce((set n | n in s.dc.keys), (set n | n in s.inFlight), ready, c, later, pending', flying');
      }
    }
  }

  /** In a list without repetitions a name occurs at most once. */
  lemma {:induction false} OccurrencesWithoutRepeats(c: TaskName, deps: seq<TaskName>)
    requires Distinct(deps)
    ensures Occurrences(c, deps) == if c in deps then 1 else 0
    decreases |deps|
  {
    if deps != [] {
      var p := deps[..|deps| - 1];
      assert deps == p + [Last(deps)];
      DistinctSnoc(p, Last(deps));
      OccurrencesWithoutRepeats(c, p);
    }
  }

  /** No task among `names` lists a dependency twice. */
  ghost predicate NoRepeats(reg: Registry, names: seq<TaskName>)
  {
    forall n :: n in names && n in reg ==> Distinct(reg[n].dependencies)
  }

  lemma {:induction false} DecrementAllRulesAgree(keys: seq<TaskName>, count: map<TaskName, int>, c: TaskName, reg: Registry)
    requires NoRepeats(reg, keys)
    ensures DecrementAll(keys, count, c, reg, ByMembership) == DecrementAll(keys, count, c, reg, ByOccurrences)
    decreases |keys|
  {
    if keys != [] {
      var p := keys[..|keys| - 1];
      assert keys == p + [Last(keys)];
      DecrementAllRulesAgree(p, count, c, reg);
      if Last(keys) in reg {
        OccurrencesWithoutRepeats(c, reg[Last(keys)].dependencies);
      }
    }
  }

  /**
   * When no pending task lists a dependency twice, lowering a count by one
   * per completion, as the source does, behaves exactly like lowering it by
   * the number of occurrences.
   */
  lemma {:induction false} RulesAgreeWithoutRepeats(reg: Registry, s: State, failing: set<TaskName>, pick: nat -> nat, step: nat)
    requires NoRepeats(reg, s.dc.keys)
    ensures Run(reg, s, failing, pick, ByMembership, step) == Run(reg, s, failing, pick, ByOccurrences, step)
    decreases s.rest
  {
    if s.rest > 0 {
      var s1 := Release(s);
      WaitingAmongKeys(s.dc.keys, s.dc.count);
      if s1.inFlight != [] {
        var j := pick(step) % |s1.inFlight|;
        DecrementAllRulesAgree(s1.dc.keys, s1.dc.count, s1.inFlight[j], reg);
        assert Finish(reg, s1, j, ByMembership) == Finish(reg, s1, j, ByOccurrences);
        RulesAgreeWithoutRepeats(reg, Finish(reg, s1, j, ByOccurrences), failing, pick, step + 1);
      }
    }
  }

  lemma SingleFilters(x: TaskName, count: map<TaskName, int>)
    ensures ReadyOf([x], count) == if IsReady(count, x) then [x] else []
    ensures WaitingOf([x], count) == if IsReady(count, x) then [] else [x]
  {
    assert [x][..0] == [];
  }

  lemma PairFilters(x: TaskName, y: TaskName, count: map<TaskName, int>)
    requires IsReady(count, x) && !IsReady(count, y)
    ensures ReadyOf([x, y], count) == [x] && WaitingOf([x, y], count) == [y]
  {
    assert [x, y][..1] == [x];
    SingleFilters(x, count);
  }

  lemma TwiceCounts(x: TaskName, reg: Registry)
    requires x in reg
    ensures RegisteredCount([x, x], reg) == 2 && Occurrences(x, [x, x]) == 2
  {
    assert [x, x][..1] == [x];
    assert [x][..0] == [];
    assert RegisteredCount([x], reg) == 1 && Occurrences(x, [x]) == 1;
  }

  lemma SingleDecrement(x: TaskName, count: map<TaskName, int>, c: TaskName, reg: Registry, rule: Rule)
    requires x in count && x in reg
    ensures DecrementAll([x], count, c, reg, rule) == count[x := count[x] - Decrement(rule, c, reg[x].dependencies)]
  {
    assert [x][..0] == [];
  }

  /** Task `a` lists task `b` twice; `b` has no dependencies. */
  function RepeatingPair(a: TaskName, b: TaskName): Registry
  {
    map[a := Task(a, UserProcedure(0), [], [b, b], None), b := Task(b, UserProcedure(1), [], [], None)]
  }

  /** The counts the search records for `RepeatingPair` with target `a`. */
  function RepeatingPairCounts(a: TaskName, b: TaskName): DepsCount
  {
    DepsCount([b, a], map[b := 0, a := 2])
  }

  /** The count search gives `a` the count 2, one for each occurrence of `b`. */
  lemma RepeatingPairCounted(a: TaskName, b: TaskName)
    requires a != b
    ensures CountsRight(RepeatingPair(a, b), RepeatingPairCounts(a, b))
  {
    TwiceCounts(b, RepeatingPair(a, b));
  }

  /** The first round sends `b`, the only task whose count is zero. */
  lemma RepeatingPairSend(a: TaskName, b: TaskName)
    requires a != b
    ensures Release(Initial(RepeatingPairCounts(a, b))) == State(DepsCount([a], map[a := 2]), [b], 2)
  {
    var dc := RepeatingPairCounts(a, b);
    PairFilters(b, a, dc.count);
    var s1 := Release(Initial(dc));
    assert (set r | r in [b]) == {b};
    assert s1.dc.count == map[a := 2];
  }

  /** The completion of `b` lowers the count of `a` by the rule's decrement. */
  lemma RepeatingPairComplete(a: TaskName, b: TaskName, rule: Rule)
    requires a != b
    ensures Finish(RepeatingPair(a, b), State(DepsCount([a], map[a := 2]), [b], 2), 0, rule) ==
      State(DepsCount([a], map[a := 2 - Decrement(rule, b, [b, b])]), [], 1)
  {
    var reg := RepeatingPair(a, b);
    assert reg[a].dependencies == [b, b];
    SingleDecrement(a, map[a := 2], b, reg, rule);
    assert [b][..0] + [b][1..] == [];
  }

  /**
   * A task `a` listing `b` twice gets the count 2, but under the source's
   * rule one completion of `b` lowers it only to 1: the loop then waits for a
   * completion that never comes.
   */
  lemma RepeatedDependencyBlocks(a: TaskName, b: TaskName, pick: nat -> nat)
    requires a != b
    ensures Run(RepeatingPair(a, b), Initial(RepeatingPairCounts(a, b)), {}, pick, ByMembership, 0) ==
      Dispatched(Blocked, [Sent(b), Completed(b)])
  {
    RepeatingPairSend(a, b);
    RepeatingPairComplete(a, b, ByMembership);
    SingleFilters(a, map[a := 1]);
    assert Run(RepeatingPair(a, b), State(DepsCount([a], map[a := 1]), [], 1), {}, pick, ByMembership, 1) ==
      Dispatched(Blocked, []);
  }

  /** Under the decrement by occurrences the second round sends and completes `a`. */
  lemma RepeatingPairLastRound(a: TaskName, b: TaskName)
    requires a != b
    ensures Release(State(DepsCount([a], map[a := 0]), [], 1)) == State(DepsCount([], map[]), [a], 1)
    ensures Finish(RepeatingPair(a, b), State(DepsCount([], map[]), [a], 1), 0, ByOccurrences) ==
      State(DepsCount([], map[]), [], 0)
  {
    SingleFilters(a, map[a := 0]);
    assert (set r | r in [a]) == {a};
    assert map[a := 0] - {a} == map[];
    assert [a][..0] + [a][1..] == [];
  }

  /** With the decrement by occurrences the same targets complete, `b` first. */
  lemma RepeatedDependencyCompletes(a: TaskName, b: TaskName, pick: nat -> nat)
    requires a != b
    ensures Run(RepeatingPair(a, b), Initial(RepeatingPairCounts(a, b)), {}, pick, ByOccurrences, 0) ==
      Dispatched(AllCompleted, [Sent(b), Completed(b), Sent(a), Completed(a)])
  {
    var reg := RepeatingPair(a, b);
    TwiceCounts(b, reg);
    RepeatingPairSend(a, b);
    RepeatingPairComplete(a, b, ByOccurrences);
    RepeatingPairLastRound(a, b);
    PairFilters(b, a, RepeatingPairCounts(a, b).count);
    SingleFilters(a, map[a := 0]);
    assert SentEvents([a]) == [Sent(a)] && SentEvents([b]) == [Sent(b)];
    var s2 := State(DepsCount([a], map[a := 0]), [], 1);
    assert Run(reg, State(DepsCount([], map[]), [], 0), {}, pick, ByOccurrences, 2) == Dispatched(AllCompleted, []);
    assert Run(reg, s2, {}, pick, ByOccurrences, 1) == Dispatched(AllCompleted, [Sent(a), Completed(a)]);
  }

  /** A run's outcome with `prefix` prepended to its trace. */
  function Resume(prefix: seq<Event>, r: Dispatched): Dispatched
  {
    Dispatched(r.outcome, prefix + r.trace)
  }

  /**
   * The sending loop of `__dispatch_tasks`: the ready keys are sent in order
   * and removed from a copy of the counts.
   */
  method SendReady(dc: DepsCount) returns (ready: seq<TaskName>, next: DepsCount)
    ensures ready == ReadyOf(dc.keys, dc.count)
    ensures next == DepsCount(WaitingOf(dc.keys, dc.count), dc.count - (set r | r in ready))
  {
    ready := [];
    var waiting: seq<TaskName> := [];
    var count := dc.count;
    for i := 0 to |dc.keys|
      invariant ready == ReadyOf(dc.keys[..i], dc.count)
      invariant waiting == WaitingOf(dc.keys[..i], dc.count)
      invariant count == dc.count - (set r | r in ready)
    {
      var target := dc.keys[i];
      assert dc.keys[..i + 1] == dc.keys[..i] + [target];
      if target in dc.count && dc.count[target] == 0 {
        assert (set r | r in ready + [target]) == (set r | r in ready) + {target};
        count := count - {target};
        ready := ready + [target];
      } else {
        waiting := waiting + [target];
      }
    }
    assert dc.keys[..|dc.keys|] == dc.keys;
    next := DepsCount(waiting, count);
  }

  /**
   * The update loop of `__dispatch_tasks`: the count of every pending task
   * whose dependency list holds `completed` is lowered by one.
   */
  method UpdateCounts(reg: Registry, dc: DepsCount, completed: TaskName) returns (count: map<TaskName, int>)
    requires forall n :: n in dc.keys ==> n in reg
    ensures count == DecrementAll(dc.keys, dc.count, completed, reg, ByMembership)
  {
    count := dc.count;
    for i := 0 to |dc.keys|
      invariant count == DecrementAll(dc.keys[..i], dc.count, completed, reg, ByMembership)
    {
      var target := dc.keys[i];
      assert dc.keys[..i + 1][..i] == dc.keys[..i] && Last(dc.keys[..i + 1]) == target;
      var task := reg[target];
      if target in count && completed in task.dependencies {
        count := count[target := count[target] - 1];
      }
    }
    assert dc.keys[..|dc.keys|] == dc.keys;
  }

  /** One unfolding of `Run`, phrased with `Resume` for the loop of `DispatchTasks`. */
  lemma RunRound(reg: Registry, s: State, failing: set<TaskName>, pick: nat -> nat, rule: Rule, step: nat)
    requires s.rest > 0
    ensures var s1 := Release(s);
      var sent := SentEvents(ReadyOf(s.dc.keys, s.dc.count));
      && (s1.inFlight == [] ==> Run(reg, s, failing, pick, rule, step) == Dispatched(Blocked, sent))
      && (s1.inFlight != [] ==>
            var j := pick(step) % |s1.inFlight|;
            var c := s1.inFlight[j];
            Run(reg, s, failing, pick, rule, step) ==
              if c in failing then Dispatched(Failed(c), sent + [Completed(c)])
              else Resume(sent + [Completed(c)], Run(reg, Finish(reg, s1, j, rule), failing, pick, rule, step + 1)))
  {
  }

  lemma ResumeTwice(a: seq<Event>, b: seq<Event>, r: Dispatched)
    ensures Resume(a, Resume(b, r)) == Resume(a + b, r)
  {
    assert a + (b + r.trace) == (a + b) + r.trace;
  }

  lemma WaitingAmongKeys(keys: seq<TaskName>, count: map<TaskName, int>)
    ensures forall n :: n in WaitingOf(keys, count) ==> n in keys
  {
    FilterFacts(keys, count);
  }

  /**
   * `__dispatch_tasks`: the loop computes exactly `Run` under the source's
   * decrement by membership, from the initial state. Where the source would
   * wait forever on an empty notification queue, the method returns `Blocked`.
   */
  method DispatchTasks(reg: Registry, dc: DepsCount, failing: set<TaskName>, pick: nat -> nat) returns (d: Dispatched)
    requires forall n :: n in dc.keys ==> n in reg
    ensures d == Run(reg, Initial(dc), failing, pick, ByMembership, 0)
  {
    var depsCount := dc;
    var inFlight: seq<TaskName> := [];
    var rest: nat := |dc.keys|;
    var step: nat := 0;
    var trace: seq<Event> := [];
    while rest > 0
      invariant forall n :: n in depsCount.keys ==> n in reg
      invariant Resume(trace, Run(reg, State(depsCount, inFlight, rest), failing, pick, ByMembership, step)) ==
        Run(reg, Initial(dc), failing, pick, ByMembership, 0)
      decreases rest
    {
      ghost var s := State(depsCount, inFlight, rest);
      RunRound(reg, s, failing, pick, ByMembership, step);
      // Request non-blocked tasks to run.
      var ready, next := SendReady(depsCount);
      WaitingAmongKeys(depsCount.keys, depsCount.count);
      inFlight := inFlight + ready;
      assert Release(s) == State(next, inFlight, rest);
      var sent := SentEvents(ready);
      // Wait task completion.
      if inFlight == [] {
        return Dispatched(Blocked, trace + sent);
      }
      var j := pick(step) % |inFlight|;
      var completed := inFlight[j];
      if completed in failing {
        return Dispatched(Failed(completed), trace + (sent + [Completed(completed)]));
      }
      // Update dependencies count.
      var count := UpdateCounts(reg, next, completed);
      depsCount := DepsCount(next.keys, count);
      inFlight := inFlight[..j] + inFlight[j + 1..];
      rest := rest - 1;
      assert State(depsCount, inFlight, rest) == Finish(reg, Release(s), j, ByMembership);
      ResumeTwice(trace, sent + [Completed(completed)], Run(reg, State(depsCount, inFlight, rest), failing, pick, ByMembership, step + 1));
      trace := trace + (sent + [Completed(completed)]);
      step := step + 1;
    }
    d := Dispatched(AllCompleted, trace);
  }
}
