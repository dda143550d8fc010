/**
 * The decisions of the command line interface (kumade/cli.py): splitting
 * the positional items into configuration entries and targets, resolving
 * the targets, choosing the runner, and the task and configuration
 * listings with their sort order and column width.
 */
module Cli {
  import opened Wrappers
  import opened Names
  import opened Tasks
  import opened Manager
  import opened Dicts
  import opened Sorting
  import opened Configuration
  import opened Loader

  /* ---- Positional items ---- */

  /** `s.split("=")`. */
  function SplitAtEquals(s: string): (parts: seq<string>)
    ensures |parts| >= 1
    decreases |s|
  {
    if s == [] then [""]
    else
      var rest := SplitAtEquals(s[1..]);
      if s[0] == '=' then [""] + rest else [[s[0]] + rest[0]] + rest[1..]
  }

  /**
   * Splitting at "=" loses nothing: the parts contain no "=", joining them
   * with "=" gives the item back, and there is more than one part exactly
   * when the item contains "=".
   */
  lemma {:induction false} SplitJoinRoundTrip(s: string)
    ensures Join("=", SplitAtEquals(s)) == s
    ensures forall i :: 0 <= i < |SplitAtEquals(s)| ==> '=' !in SplitAtEquals(s)[i]
    ensures ('=' in s) <==> |SplitAtEquals(s)| >= 2
    decreases |s|
  {
    if s != [] {
      var rest := SplitAtEquals(s[1..]);
      SplitJoinRoundTrip(s[1..]);
      assert s == [s[0]] + s[1..];
      if s[0] == '=' {
        assert ([""] + rest)[1..] == rest;
      } else {
        var parts := [[s[0]] + rest[0]] + rest[1..];
        if |rest| == 1 {
          assert parts == [[s[0]] + rest[0]];
        } else {
          assert parts[1..] == rest[1..];
          assert Join("=", rest) == rest[0] + "=" + Join("=", rest[1..]);
        }
      }
    }
  }

  /** The configuration entries and the targets among the positional items. */
  datatype Positional = Positional(config: Dict<string>, targets: seq<string>)

  /** An item with "=" is a configuration entry. */
  predicate IsEntry(item: string)
  {
    '=' in item
  }

  /**
   * The separation loop of `CLI.create`: an item with one "=" sets the
   * entry named by the part before it to the part after it; an item without
   * "=" is a target; an item with more than one "=" cannot be unpacked.
   */
  function Separate(items: seq<string>): Result<Positional, string>
    decreases |items|
  {
    if items == [] then Success(Positional(Empty(), []))
    else
      var r := Separate(items[..|items| - 1]);
      var item := items[|items| - 1];
      if r.Failure? then r
      else if !IsEntry(item) then Success(Positional(r.value.config, r.value.targets + [item]))
      else
        var parts := SplitAtEquals(item);
        if |parts| != 2 then Failure("too many values to unpack (expected 2)")
        else Success(Positional(r.value.config.Insert(parts[0], parts[1]), r.value.targets))
  }

  /** The items without "=", in order. */
  function TargetItems(items: seq<string>): seq<string>
    decreases |items|
  {
    if items == [] then []
    else (if IsEntry(items[0]) then [] else [items[0]]) + TargetItems(items[1..])
  }

  lemma {:induction false} TargetItemsSnoc(items: seq<string>, item: string)
    ensures TargetItems(items + [item]) == TargetItems(items) + (if IsEntry(item) then [] else [item])
    decreases |items|
  {
    if items == [] {
      assert [item][1..] == [];
    } else {
      assert (items + [item])[1..] == items[1..] + [item];
      TargetItemsSnoc(items[1..], item);
    }
  }

  /** Separation fails exactly when some item has more than one "="; otherwise the targets are the items without "=", in order. */
  lemma {:induction false} SeparateTargets(items: seq<string>)
    ensures Separate(items).Success? <==> forall i :: 0 <= i < |items| ==> |SplitAtEquals(items[i])| <= 2
    ensures Separate(items).Success? ==> Separate(items).value.targets == TargetItems(items)
    decreases |items|
  {
    if items != [] {
      var front := items[..|items| - 1];
      var item := items[|items| - 1];
      SeparateTargets(front);
      SplitJoinRoundTrip(item);
      TargetItemsSnoc(front, item);
      assert items == front + [item];
      assert forall i :: 0 <= i < |front| ==> front[i] == items[i];
    }
  }

  /** The configuration entry an item names and the value it gives. */
  predicate NamesEntry(item: string, k: string)
  {
    IsEntry(item) && SplitAtEquals(item)[0] == k
  }

  /** Some item is an entry naming `k`. */
  predicate Named(items: seq<string>, k: string)
  {
    exists i :: 0 <= i < |items| && NamesEntry(items[i], k)
  }

  /** `items[i]` is the last entry naming `k`, and it gives `v`. */
  predicate LastEntryAt(items: seq<string>, i: int, k: string, v: string)
  {
    && 0 <= i < |items| && NamesEntry(items[i], k)
    && |SplitAtEquals(items[i])| == 2 && SplitAtEquals(items[i])[1] == v
    && forall j :: i < j < |items| ==> !NamesEntry(items[j], k)
  }

  predicate LastEntryGives(items: seq<string>, k: string, v: string)
  {
    exists i :: 0 <= i < |items| && LastEntryAt(items, i, k, v)
  }

  /**
   * After a successful separation the configuration holds exactly the names
   * the entries give, each listed once.
   */
  lemma {:induction false} SeparateConfigKeys(items: seq<string>)
    requires Separate(items).Success?
    ensures Separate(items).value.config.Valid()
    ensures forall k :: k in Separate(items).value.config.entries <==> Named(items, k)
    decreases |items|
  {
    if items != [] {
      var front := items[..|items| - 1];
      var item := items[|items| - 1];
      SeparateConfigKeys(front);
      assert forall i :: 0 <= i < |front| ==> front[i] == items[i];
      forall k ensures Named(items, k) <==> Named(front, k) || NamesEntry(item, k) {
        if Named(items, k) && !NamesEntry(item, k) {
          var i :| 0 <= i < |items| && NamesEntry(items[i], k);
          assert i < |front|;
        }
      }
    }
  }

  /** After a successful separation each configuration entry has the value of the last item naming it. */
  lemma {:induction false} SeparateConfigValues(items: seq<string>)
    requires Separate(items).Success?
    ensures var c := Separate(items).value.config;
      forall k :: k in c.entries ==> LastEntryGives(items, k, c.entries[k])
    decreases |items|
  {
    if items != [] {
      var front := items[..|items| - 1];
      var item := items[|items| - 1];
      SeparateConfigValues(front);
      var c := Separate(items).value.config;
      var c0 := Separate(front).value.config;
      var n := |items| - 1;
      assert forall i :: 0 <= i < |front| ==> front[i] == items[i];
      forall k | k in c.entries && !NamesEntry(item, k)
        ensures LastEntryGives(items, k, c.entries[k])
      {
        assert k in c0.entries && c.entries[k] == c0.entries[k];
        var i :| 0 <= i < |front| && LastEntryAt(front, i, k, c0.entries[k]);
        assert LastEntryAt(items, i, k, c.entries[k]);
      }
      forall k | k in c.entries && NamesEntry(item, k)
        ensures LastEntryGives(items, k, c.entries[k])
      {
        assert LastEntryAt(items, n, k, c.entries[k]);
      }
    }
  }

  /** The separation loop of `CLI.create`, proved to compute `Separate`. */
  method SeparateConfigAndTargets(items: seq<string>) returns (r: Result<Positional, string>)
    ensures r == Separate(items)
  {
    var config: Dict<string> := Empty();
    var targets: seq<string> := [];
    for i := 0 to |items|
      invariant Separate(items[..i]) == Success(Positional(config, targets))
    {
      var item := items[i];
      assert items[..i + 1][..i] == items[..i] && items[..i + 1][i] == item;
      if IsEntry(item) {
        var parts := SplitAtEquals(item);
        if |parts| != 2 {
          SeparateStopsAtFailure(items, i + 1);
          return Failure("too many values to unpack (expected 2)");
        }
        config := config.Insert(parts[0], parts[1]);
      } else {
        targets := targets + [item];
      }
    }
    assert items[..|items|] == items;
    r := Success(Positional(config, targets));
  }

  /** Once a prefix fails to separate, the whole sequence fails the same way. */
  lemma {:induction false} SeparateStopsAtFailure(items: seq<string>, n: nat)
    requires n <= |items| && Separate(items[..n]).Failure?
    ensures Separate(items) == Separate(items[..n])
    decreases |items| - n
  {
    if n < |items| {
      assert items[..n + 1][..n] == items[..n];
      SeparateStopsAtFailure(items, n + 1);
    } else {
      assert items[..n] == items;
    }
  }

  /* ---- Targets and the runner ---- */

  /** A target is first looked up as a symbolic name, then as its absolute path. */
  function Resolve(tasks: map<TaskName, Task>, target: string, absolute: string -> Path): Option<TaskName>
  {
    if Symbol(target) in tasks then Some(Symbol(target))
    else if PathName(absolute(target)) in tasks then Some(PathName(absolute(target)))
    else None
  }

  /** The targets to run: the given ones, or the default task name when none is given. */
  function Requested(targets: seq<string>, defaultTaskName: Option<string>): Option<seq<string>>
  {
    if targets != [] then Some(targets)
    else if defaultTaskName.Some? then Some([defaultTaskName.value])
    else None
  }

  /**
   * The target resolution of `CLI.run`: without targets the default task is
   * used, and refused when there is none; each target must resolve, the
   * first one that does not is reported; the resolved names are registered.
   */
  method ResolveTargets(manager: TaskManager, targets: seq<string>, absolute: string -> Path)
    returns (given: seq<string>, r: Result<seq<TaskName>, string>)
    requires manager.Valid()
    ensures Requested(targets, manager.defaultTaskName).None? ==> r == Failure("No target is specified.")
    ensures Requested(targets, manager.defaultTaskName).Some? ==> given == Requested(targets, manager.defaultTaskName).value
    ensures r.Success? <==>
      && Requested(targets, manager.defaultTaskName).Some?
      && forall i :: 0 <= i < |given| ==> Resolve(manager.tasks, given[i], absolute).Some?
    ensures r.Success? ==>
      && |r.value| == |given|
      && forall i :: 0 <= i < |given| ==>
           r.value[i] == Resolve(manager.tasks, given[i], absolute).value && r.value[i] in manager.tasks
    ensures r.Failure? && Requested(targets, manager.defaultTaskName).Some? ==>
      exists i :: 0 <= i < |given| && Resolve(manager.tasks, given[i], absolute).None?
        && r.error == "Unknown target '" + given[i] + "' is specified."
  {
    given := targets;
    if |given| == 0 {
      if manager.defaultTaskName.None? {
        return given, Failure("No target is specified.");
      }
      given := given + [manager.defaultTaskName.value];
    }
    var resolved: seq<TaskName> := [];
    for i := 0 to |given|
      invariant |resolved| == i
      invariant forall j :: 0 <= j < i ==>
        Resolve(manager.tasks, given[j], absolute).Some? && resolved[j] == Resolve(manager.tasks, given[j], absolute).value
    {
      var target := given[i];
      if manager.Find(Symbol(target)).Some? {
        resolved := resolved + [Symbol(target)];
      } else {
        var targetPath := absolute(target);
        if manager.Find(PathName(targetPath)).Some? {
          resolved := resolved + [PathName(targetPath)];
        } else {
          return given, Failure("Unknown target '" + target + "' is specified.");
        }
      }
    }
    r := Success(resolved);
  }

  /** The runner `CLI.run` uses; the concurrent runner is made without the verbose flag. */
  datatype RunnerChoice = Sequential(verbose: bool) | Concurrent(nWorkers: int)

  /** Sequential when no worker count is given or it is below 2, concurrent otherwise. */
  function ChooseRunner(nWorkers: Option<int>, verbose: bool): (c: RunnerChoice)
    ensures c.Sequential? <==> nWorkers.None? || nWorkers.value < 2
    ensures c.Sequential? ==> c.verbose == verbose
    ensures c.Concurrent? ==> nWorkers == Some(c.nWorkers) && c.nWorkers >= 2
  {
    if nWorkers.None? || nWorkers.value < 2 then Sequential(verbose) else Concurrent(nWorkers.value)
  }

  /* ---- Listings ---- */

  function Spaces(n: nat): (s: string)
    ensures |s| == n && forall i :: 0 <= i < n ==> s[i] == ' '
  {
    seq(n, i => ' ')
  }

  /** A name indented by two places and padded to `width`: what precedes the description marker. */
  function Padded(name: string, width: nat): (p: string)
    requires |name| <= width
    ensures |p| == 2 + width && p[2..2 + |name|] == name
  {
    var p := "  " + name + Spaces(width - |name|);
    assert p[2..2 + |name|] == name;
    p
  }

  /** `max(len(n) for n in names)`, and 0 for no names. */
  function MaxLength(names: seq<string>): (m: nat)
    ensures forall i :: 0 <= i < |names| ==> |names[i]| <= m
    ensures names != [] ==> exists i :: 0 <= i < |names| && |names[i]| == m
    ensures names == [] ==> m == 0
    decreases |names|
  {
    if names == [] then 0
    else
      var rest := MaxLength(names[1..]);
      assert forall i :: 1 <= i < |names| ==> names[i] == names[1..][i - 1];
      if |names[0]| >= rest then |names[0]| else rest
  }

  /** The configuration listing sorts the items by name. */
  function ConfigKey(item: ConfigItem): Key
  {
    Key(0, item.name)
  }

  function ItemNames(items: seq<ConfigItem>): (names: seq<string>)
    ensures |names| == |items| && forall i :: 0 <= i < |items| ==> names[i] == items[i].name
  {
    seq(|items|, i requires 0 <= i < |items| => items[i].name)
  }

  /** One line of the configuration listing: the name padded to `width`, then the description and the default. */
  function ConfigLine(item: ConfigItem, width: nat): string
    requires |item.name| <= width
  {
    Padded(item.name, width) + "# " + item.help + " (default: " + item.defaultValue.text + ")"
  }

  /** The lines of `items`, in order. */
  function ConfigLines(items: seq<ConfigItem>, width: nat): (lines: seq<string>)
    requires forall i :: 0 <= i < |items| ==> |items[i].name| <= width
    ensures |lines| == |items| && forall i :: 0 <= i < |items| ==> lines[i] == ConfigLine(items[i], width)
  {
    seq(|items|, i requires 0 <= i < |items| => ConfigLine(items[i], width))
  }

  /** The name column width of the configuration listing: 2 past the longest name. */
  function ConfigWidth(items: seq<ConfigItem>): (w: nat)
    ensures forall item :: item in items ==> |item.name| + 2 <= w
  {
    var names := ItemNames(items);
    assert forall item :: item in items ==> exists i :: 0 <= i < |items| && items[i] == item;
    MaxLength(names) + 2
  }

  /** The width is no wider than needed: some item's name fills it up to the two spaces before "#". */
  lemma ConfigWidthTight(items: seq<ConfigItem>)
    requires items != []
    ensures exists item :: item in items && |item.name| + 2 == ConfigWidth(items)
  {
    var names := ItemNames(items);
    var i :| 0 <= i < |names| && |names[i]| == MaxLength(names);
    assert items[i] in items;
  }

  /**
   * `__show_config_items`: "(None)" when there is no item; otherwise every
   * item, sorted by name, its name padded to the longest name plus 2.
   */
  function ConfigListing(items: seq<ConfigItem>): (lines: seq<string>)
    ensures items == [] ==> lines == ["Configuration items:", "  (None)"]
    ensures items != [] ==> |lines| == |items| + 1 && lines[0] == "Configuration items:"
    ensures multiset(SortBy(items, ConfigKey)) == multiset(items) && |SortBy(items, ConfigKey)| == |items|
    ensures forall j :: 0 <= j < |items| ==> SortBy(items, ConfigKey)[j] in items
    ensures items != [] ==> forall j :: 0 <= j < |items| ==>
      lines[j + 1] == ConfigLine(SortBy(items, ConfigKey)[j], ConfigWidth(items))
  {
    SortByCorrect(items, ConfigKey);
    var sorted := SortBy(items, ConfigKey);
    assert forall i :: 0 <= i < |sorted| ==> sorted[i] in multiset(items);
    if items == [] then ["Configuration items:", "  (None)"]
    else ["Configuration items:"] + ConfigLines(sorted, ConfigWidth(items))
  }

  /**
   * The configuration listing lists every item once, in name order, each
   * on its own line.
   */
  lemma ConfigListingSorted(items: seq<ConfigItem>)
    requires items != []
    ensures var lines := ConfigListing(items);
      var sorted := SortBy(items, ConfigKey);
      && multiset(sorted) == multiset(items) && |lines| == |items| + 1
      && (forall i, j :: 0 <= i < j < |sorted| ==> StrLe(sorted[i].name, sorted[j].name))
      && forall j :: 0 <= j < |sorted| ==> lines[j + 1] == ConfigLine(sorted[j], ConfigWidth(items))
  {
    SortByCorrect(items, ConfigKey);
  }

  /**
   * In the configuration listing the description marker "#" stands in the
   * same column on every line, two places after the longest name.
   */
  lemma ConfigListingAligned(items: seq<ConfigItem>)
    requires items != []
    ensures var lines := ConfigListing(items);
      forall i :: 1 <= i < |lines| ==> lines[i][2 + ConfigWidth(items)] == '#'
  {
    var width := ConfigWidth(items);
    var sorted := SortBy(items, ConfigKey);
    var lines := ConfigListing(items);
    forall i | 1 <= i < |lines|
      ensures lines[i][2 + width] == '#'
    {
      var j := i - 1;
      var item := sorted[j];
      assert lines[j + 1] == Padded(item.name, width) + "# " + item.help + " (default: " + item.defaultValue.text + ")";
    }
  }

  /** Described tasks first, then other symbolic names, then paths; each group by `str(name)`. */
  function SortKey(t: Task): Key
  {
    Key(Group(t), NameToString(t.name))
  }

  /** 0 for a described task, 1 for another symbolic name, 2 for a path. */
  function Group(t: Task): int
  {
    if t.HasHelp() then 0 else if t.name.Symbol? then 1 else 2
  }

  /** The names of the described tasks among `tasks`. */
  function DescribedNames(tasks: seq<Task>): (names: seq<string>)
    ensures forall n :: n in names <==> exists t :: t in tasks && t.HasHelp() && NameToString(t.name) == n
    ensures |names| <= |tasks|
    decreases |tasks|
  {
    if tasks == [] then []
    else
      var rest := DescribedNames(tasks[1..]);
      assert forall t :: t in tasks <==> t == tasks[0] || t in tasks[1..];
      (if tasks[0].HasHelp() then [NameToString(tasks[0].name)] else []) + rest
  }

  /**
   * The name column width of `__show_tasks` as written: `max` over the
   * described tasks' names, which raises when no task is described.
   */
  function TaskWidthAsWritten(tasks: seq<Task>): Result<nat, string>
  {
    var names := DescribedNames(tasks);
    if names == [] then Failure("max() arg is an empty sequence") else Success(MaxLength(names) + 2)
  }

  /** The name column width, 2 past the longest described name, and 2 when no task is described. */
  function TaskWidth(tasks: seq<Task>): (w: nat)
    ensures forall t :: t in tasks && t.HasHelp() ==> |NameToString(t.name)| + 2 <= w
  {
    var names := DescribedNames(tasks);
    forall t | t in tasks && t.HasHelp()
      ensures |NameToString(t.name)| <= MaxLength(names)
    {
      assert NameToString(t.name) in names;
    }
    MaxLength(names) + 2
  }

  /** One line of the task listing. */
  function TaskLine(t: Task, width: nat): string
    requires t.HasHelp() ==> |NameToString(t.name)| <= width
  {
    var name := NameToString(t.name);
    if t.HasHelp() then Padded(name, width) + "# " + t.help.value
    else if t.name.Symbol? then "  " + name
    else "  (Path) " + name
  }

  function TaskLines(tasks: seq<Task>, width: nat): (lines: seq<string>)
    requires forall i :: 0 <= i < |tasks| && tasks[i].HasHelp() ==> |NameToString(tasks[i].name)| <= width
    ensures |lines| == |tasks| && forall i :: 0 <= i < |tasks| ==> lines[i] == TaskLine(tasks[i], width)
  {
    seq(|tasks|, i requires 0 <= i < |tasks| => TaskLine(tasks[i], width))
  }

  /** `__show_tasks` over the listed tasks, with the width corrected to allow no described task. */
  function TaskListing(tasks: seq<Task>): (lines: seq<string>)
    ensures |lines| == |tasks| + 1 && lines[0] == "Tasks:"
    ensures multiset(SortBy(tasks, SortKey)) == multiset(tasks) && |SortBy(tasks, SortKey)| == |tasks|
    ensures forall j :: 0 <= j < |tasks| ==> SortBy(tasks, SortKey)[j] in tasks
    ensures forall j :: 0 <= j < |tasks| ==> lines[j + 1] == TaskLine(SortBy(tasks, SortKey)[j], TaskWidth(tasks))
  {
    var width := TaskWidth(tasks);
    var sorted := SortBy(tasks, SortKey);
    SortByCorrect(tasks, SortKey);
    assert forall i :: 0 <= i < |sorted| ==> sorted[i] in multiset(tasks);
    ["Tasks:"] + TaskLines(sorted, width)
  }

  /** `__show_tasks` as written: it fails where the width does. */
  function TaskListingAsWritten(tasks: seq<Task>): Result<seq<string>, string>
  {
    var w := TaskWidthAsWritten(tasks);
    if w.Failure? then Failure(w.error)
    else
      assert w.value == TaskWidth(tasks);
      Success(TaskListing(tasks))
  }

  /**
   * As written, listing tasks none of which is described fails: with `-t`
   * that is any Kumadefile without a described task, even one with tasks,
   * and with `-T` a Kumadefile whose tasks all lack a description.
   */
  lemma UndescribedListingFails(t: Task)
    requires !t.HasHelp()
    ensures TaskListingAsWritten([]).Failure?
    ensures TaskListingAsWritten([t]).Failure?
  {
    assert [t][1..] == [];
  }

  /**
   * With the corrected width the listing always succeeds, and it agrees
   * with the code as written whenever some task is described.
   */
  lemma TaskListingCorrected(tasks: seq<Task>)
    ensures (exists t :: t in tasks && t.HasHelp()) <==> TaskListingAsWritten(tasks).Success?
    ensures TaskListingAsWritten(tasks).Success? ==> TaskListingAsWritten(tasks).value == TaskListing(tasks)
  {
    var names := DescribedNames(tasks);
    if exists t :: t in tasks && t.HasHelp() {
      var t :| t in tasks && t.HasHelp();
      assert NameToString(t.name) in names;
    }
    if names != [] {
      assert names[0] in names;
    }
  }

  /**
   * The tasks are listed described tasks first, then other symbolic names,
   * then paths, each group in name order.
   */
  lemma TaskListingOrdered(tasks: seq<Task>)
    ensures var sorted := SortBy(tasks, SortKey);
      forall i, j :: 0 <= i < j < |sorted| ==>
        Group(sorted[i]) < Group(sorted[j])
        || (Group(sorted[i]) == Group(sorted[j]) && StrLe(NameToString(sorted[i].name), NameToString(sorted[j].name)))
  {
    var sorted := SortBy(tasks, SortKey);
    SortByCorrect(tasks, SortKey);
    forall i, j | 0 <= i < j < |sorted|
      ensures KeyLe(SortKey(sorted[i]), SortKey(sorted[j]))
    {
    }
  }

  /** In the task listing the description marker "#" of every described task stands in one column. */
  lemma TaskListingAligned(tasks: seq<Task>)
    ensures var sorted := SortBy(tasks, SortKey);
      var lines := TaskListing(tasks);
      forall j :: 0 <= j < |sorted| && sorted[j].HasHelp() ==> lines[j + 1][2 + TaskWidth(tasks)] == '#'
  {
    var width := TaskWidth(tasks);
    var sorted := SortBy(tasks, SortKey);
    var lines := TaskListing(tasks);
    forall j | 0 <= j < |sorted| && sorted[j].HasHelp()
      ensures lines[j + 1][2 + width] == '#'
    {
      var t := sorted[j];
      assert lines[j + 1] == Padded(NameToString(t.name), width) + "# " + t.help.value;
    }
  }

  /* ---- The command ---- */

  /** The tasks `__show_tasks` lists: all of them with `-T`, the described ones with `-t`. */
  function Listed(manager: TaskManager, showsAll: bool): seq<Task>
    reads manager
    requires manager.Valid()
  {
    if showsAll then manager.GetAllTasks() else manager.GetTasksDescribedWithHelp()
  }

  /** `get_confirmed_values` accepts `values`: every key names an item, and every given value converts. */
  predicate AllConfirm(items: Dict<ConfigItem>, values: Dict<string>, convert: Conversion)
  {
    && (forall k :: k in values.entries ==> k in items.entries)
    && (forall n :: n in items.entries ==> ConfirmedValue(items.entries[n], values, convert).Some?)
  }

  /** Every target resolves to a registered name. */
  predicate AllResolve(tasks: map<TaskName, Task>, given: seq<string>, absolute: string -> Path)
  {
    forall i :: 0 <= i < |given| ==> Resolve(tasks, given[i], absolute).Some?
  }

  /** What `CLI.run` goes on to do: print the listings, or run the resolved targets with the chosen runner. */
  datatype Action = ShowListing(lines: seq<string>) | RunTargets(runner: RunnerChoice, targets: seq<TaskName>)

  class CLI {
    const loader: KumadefileLoader
    const registry: ConfigRegistry
    const slot: ConfigSlot
    const manager: TaskManager
    const kumadefile: Option<Path>
    const showsTasks: bool
    const showsAll: bool
    const nWorkers: Option<int>
    const verbose: bool
    const config: Dict<string>
    var targets: seq<string>

    constructor(loader: KumadefileLoader, registry: ConfigRegistry, slot: ConfigSlot, manager: TaskManager,
                kumadefile: Option<Path>, showsTasks: bool, showsAll: bool, nWorkers: Option<int>, verbose: bool,
                config: Dict<string>, targets: seq<string>)
      ensures this.loader == loader && this.registry == registry && this.slot == slot && this.manager == manager
      ensures this.kumadefile == kumadefile && this.showsTasks == showsTasks && this.showsAll == showsAll
      ensures this.nWorkers == nWorkers && this.verbose == verbose && this.config == config && this.targets == targets
    {
      this.loader := loader;
      this.registry := registry;
      this.slot := slot;
      this.manager := manager;
      this.kumadefile := kumadefile;
      this.showsTasks := showsTasks;
      this.showsAll := showsAll;
      this.nWorkers := nWorkers;
      this.verbose := verbose;
      this.config := config;
      this.targets := targets;
    }

    /**
     * `create`, after argument parsing: a given Kumadefile must exist;
     * `-t` or `-T` shows the listings and only `-T` shows every task; the
     * positional items are separated into configuration and targets.
     */
    static method Create(file: Option<Path>, fs: FileSystem, tasksFlag: bool, allTasksFlag: bool, jobs: Option<int>,
                         verbose: bool, items: seq<string>, loader: KumadefileLoader, registry: ConfigRegistry,
                         slot: ConfigSlot, manager: TaskManager)
      returns (r: Result<CLI, string>)
      ensures file.Some? && file.value !in fs ==> r.Failure?
      ensures (file.None? || file.value in fs) ==> (r.Success? <==> Separate(items).Success?)
      ensures r.Success? ==>
        var c := r.value;
        && fresh(c) && c.kumadefile == file && c.nWorkers == jobs && c.verbose == verbose
        && c.showsTasks == (tasksFlag || allTasksFlag) && c.showsAll == allTasksFlag
        && Separate(items) == Success(Positional(c.config, c.targets))
        && c.loader == loader && c.registry == registry && c.slot == slot && c.manager == manager
    {
      if file.Some? && file.value !in fs {
        return Failure("File " + PathToString(file.value) + " does not exist.");
      }
      var separated := SeparateConfigAndTargets(items);
      if separated.Failure? {
        return Failure(separated.error);
      }
      var c := new CLI(loader, registry, slot, manager, file, tasksFlag || allTasksFlag, allTasksFlag, jobs, verbose,
                       separated.value.config, separated.value.targets);
      r := Success(c);
    }

    /**
     * `run`, up to handing the targets to a runner: load the Kumadefile;
     * with a listing flag, produce the listings, which fail as written when
     * no listed task is described; otherwise confirm the configuration (once
     * only), resolve the targets, and choose the runner. A command line
     * fails exactly when one of these steps refuses it.
     */
    method Run(cwd: Path, fs: FileSystem, convert: Conversion, absolute: string -> Path) returns (r: Result<Action, string>)
      requires manager.Valid() && registry.Valid() && config.Valid()
      modifies this, loader, slot
      ensures !Loads(old(loader.loaded), kumadefile, cwd, fs) ==> r.Failure?
      ensures r.Success? ==> loader.loaded.Some?
      ensures Loads(old(loader.loaded), kumadefile, cwd, fs) && showsTasks ==>
        var listing := TaskListingAsWritten(Listed(manager, showsAll));
        && (r.Success? <==> listing.Success?)
        && (r.Success? ==> r.value == ShowListing(ConfigListing(registry.GetAllItems()) + listing.value))
        && (r.Failure? ==> r.error == listing.error)
      ensures Loads(old(loader.loaded), kumadefile, cwd, fs) && !showsTasks ==>
        (r.Success? <==>
          && AllConfirm(registry.items, config, convert)
          && old(slot.instance).None?
          && Requested(old(targets), manager.defaultTaskName).Some?
          && AllResolve(manager.tasks, Requested(old(targets), manager.defaultTaskName).value, absolute))
      ensures r.Success? && !showsTasks ==>
        && slot.instance.Some?
        && var confirmed := slot.instance.value.values;
           && confirmed.Valid() && confirmed.keys == registry.items.keys
           && forall n :: n in registry.items.entries ==>
                confirmed.entries[n] == ConfirmedValue(registry.items.entries[n], config, convert).value
      ensures r.Success? && !showsTasks ==>
        && var given := Requested(old(targets), manager.defaultTaskName).value;
           && r.value.RunTargets? && r.value.runner == ChooseRunner(nWorkers, verbose)
           && |r.value.targets| == |given|
           && forall i :: 0 <= i < |given| ==> r.value.targets[i] == Resolve(manager.tasks, given[i], absolute).value
    {
      var loaded := loader.Load(kumadefile, cwd, fs);
      if loaded.Failure? {
        return Failure(loaded.error);
      }
      if showsTasks {
        var listing := TaskListingAsWritten(Listed(manager, showsAll));
        if listing.Failure? {
          return Failure(listing.error);
        }
        return Success(ShowListing(ConfigListing(registry.GetAllItems()) + listing.value));
      }
      var confirmed := registry.GetConfirmedValues(config, convert);
      if confirmed.Failure? {
        return Failure(if confirmed.error.UnknownItem? then "There is no configuration item named " + confirmed.error.name + "."
                       else "Converting configuration item " + confirmed.error.name + " failed.");
      }
      var stored := slot.Set(confirmed.value);
      if stored.Failure? {
        return Failure(stored.error);
      }
      var given, resolved := ResolveTargets(manager, targets, absolute);
      targets := given;
      if resolved.Failure? {
        return Failure(resolved.error);
      }
      r := Success(RunTargets(ChooseRunner(nWorkers, verbose), resolved.value));
    }
  }
}
