/**
 * The procedures a task can run (kumade/builder.py, kumade/utility.py):
 * a user procedure, the file-freshness gate `procedure_with_file_check`
 * around another procedure, `clean_procedure`, and the `mkdir` lambda of
 * `directory`. User procedures are opaque: what they do to the filesystem,
 * and whether they raise, is given by a `UserBehaviour`.
 */
module Procedures {
  import opened Names

  datatype Procedure =
    | UserProcedure(id: nat)
    | WithFileCheck(target: Path, dependencies: seq<TaskName>, inner: Procedure)
    | CleanProcedure
    | MakeDirectory

  /** One observable call made while a procedure runs. */
  datatype Call = UserCall(id: nat, args: seq<Value>) | Mkdir(path: Path) | Unlink(path: Path) | Rmtree(path: Path)

  /** What one call of a user procedure does: the filesystem it leaves and whether it raised. */
  datatype UserOutcome = UserOutcome(fs: FileSystem, raised: bool)

  /** The behaviour of every user procedure, by identity, bound arguments and filesystem. */
  type UserBehaviour = (nat, seq<Value>, FileSystem) -> UserOutcome

  /** The result of running a procedure: the filesystem after it, the calls made, whether it raised. */
  datatype Effect = Effect(fs: FileSystem, calls: seq<Call>, raised: bool)

  function NoEffect(fs: FileSystem): Effect
  {
    Effect(fs, [], false)
  }

  /** `calls` made earlier, followed by the effect `e`. */
  function After(calls: seq<Call>, e: Effect): Effect
  {
    Effect(e.fs, calls + e.calls, e.raised)
  }

  /** A dependency that is a `Path` naming an existing file strictly newer than `mtime`. */
  predicate IsNewerFile(dep: TaskName, mtime: int, fs: FileSystem)
  {
    dep.PathName? && dep.path in fs && fs[dep.path].File? && mtime < fs[dep.path].mtime
  }

  /**
   * The staleness policy of a file task: run when the target does not exist;
   * never when it is a directory; otherwise exactly when some dependency is an
   * existing file strictly newer than the target.
   */
  predicate ShouldRun(target: Path, deps: seq<TaskName>, fs: FileSystem)
  {
    target !in fs
    || (fs[target].File? && exists i :: 0 <= i < |deps| && IsNewerFile(deps[i], fs[target].mtime, fs))
  }

  /** `shutil.rmtree(p)`: `p` and everything below it disappear. */
  function RemoveTree(fs: FileSystem, p: Path): FileSystem
  {
    map q | q in fs && !IsAncestorOrSelf(p, q) :: fs[q]
  }

  /** One step of `clean_procedure`: unlink a file, remove a directory tree, skip a missing path. */
  function DeletePath(p: Path, fs: FileSystem): Effect
  {
    if p !in fs then NoEffect(fs)
    else if fs[p].File? then Effect(fs - {p}, [Unlink(p)], false)
    else Effect(RemoveTree(fs, p), [Rmtree(p)], false)
  }

  /** `clean_procedure(*paths)`; an argument that is not a `Path` raises (it has no `exists`). */
  function Clean(paths: seq<Value>, fs: FileSystem): Effect
    decreases |paths|
  {
    if paths == [] then NoEffect(fs)
    else if !paths[0].PathArg? then Effect(fs, [], true)
    else
      var e := DeletePath(paths[0].path, fs);
      After(e.calls, Clean(paths[1..], e.fs))
  }

  /**
   * `path.mkdir(parents=True)`, the procedure of a `directory` task: it takes
   * exactly one `Path`; it raises if the path exists or a directory above it
   * is a file; otherwise the path and its missing ancestors become directories.
   */
  function MakeDir(args: seq<Value>, fs: FileSystem): Effect
  {
    if |args| != 1 || !args[0].PathArg? then Effect(fs, [], true)
    else
      var p := args[0].path;
      if p in fs || exists a :: a in Ancestors(p) && a in fs && fs[a].File? then Effect(fs, [Mkdir(p)], true)
      else Effect(fs + map a | a in Ancestors(p) + {p} && a !in fs :: Dir(0), [Mkdir(p)], false)
  }

  /** Calling a procedure with the given arguments. */
  function Apply(p: Procedure, args: seq<Value>, fs: FileSystem, env: UserBehaviour): Effect
    decreases p
  {
    match p
    case UserProcedure(id) =>
      var o := env(id, args, fs);
      Effect(o.fs, [UserCall(id, args)], o.raised)
    case WithFileCheck(target, deps, inner) =>
      if ShouldRun(target, deps, fs) then Apply(inner, args, fs, env) else NoEffect(fs)
    case CleanProcedure => Clean(args, fs)
    case MakeDirectory => MakeDir(args, fs)
  }

  /** Runs a procedure, using the loops of the source for the file check and for cleaning. */
  method RunProcedure(p: Procedure, args: seq<Value>, fs: FileSystem, env: UserBehaviour) returns (e: Effect)
    ensures e == Apply(p, args, fs, env)
    decreases p, 1
  {
    match p
    case UserProcedure(id) =>
      var o := env(id, args, fs);
      e := Effect(o.fs, [UserCall(id, args)], o.raised);
    case WithFileCheck(target, deps, inner) =>
      e := ProcedureWithFileCheck(target, deps, inner, args, fs, env);
    case CleanProcedure =>
      e := CleanPaths(args, fs);
    case MakeDirectory =>
      e := MakeDir(args, fs);
  }

  /** `procedure_with_file_check`: the loop over the dependencies with its early returns. */
  method ProcedureWithFileCheck(target: Path, deps: seq<TaskName>, inner: Procedure, args: seq<Value>, fs: FileSystem, env: UserBehaviour)
    returns (e: Effect)
    ensures e == (if ShouldRun(target, deps, fs) then Apply(inner, args, fs, env) else NoEffect(fs))
    decreases inner, 2
  {
    if target !in fs {
      e := RunProcedure(inner, args, fs, env);
      return;
    }
    if fs[target].Dir? {
      return NoEffect(fs);
    }
    var timestamp := fs[target].mtime;
    for i := 0 to |deps|
      invariant forall j :: 0 <= j < i ==> !IsNewerFile(deps[j], timestamp, fs)
    {
      var dep := deps[i];
      if dep.PathName? && dep.path in fs && fs[dep.path].File? {
        var depTimestamp := fs[dep.path].mtime;
        if timestamp < depTimestamp {
          e := RunProcedure(inner, args, fs, env);
          return;
        }
      }
    }
    e := NoEffect(fs);
  }

  /** `clean_procedure`: the loop over the paths, deleting each one that exists. */
  method CleanPaths(paths: seq<Value>, fs: FileSystem) returns (e: Effect)
    ensures e == Clean(paths, fs)
  {
    var current := fs;
    var calls: seq<Call> := [];
    for i := 0 to |paths|
      invariant After(calls, Clean(paths[i..], current)) == Clean(paths, fs)
    {
      var v := paths[i];
      if !v.PathArg? {
        return Effect(current, calls, true);
      }
      var path := v.path;
      var next, step := current, [];
      if path in current {
        if current[path].File? {
          next, step := current - {path}, [Unlink(path)];
        } else {
          next, step := RemoveTree(current, path), [Rmtree(path)];
        }
      }
      CleanStep(paths, i, current, calls);
      assert Effect(next, step, false) == DeletePath(path, current);
      current, calls := next, calls + step;
    }
    e := Effect(current, calls, false);
  }

  /** Unfolds `Clean` once at position `i` of the argument list. */
  lemma CleanStep(paths: seq<Value>, i: nat, fs: FileSystem, calls: seq<Call>)
    requires i < |paths| && paths[i].PathArg?
    ensures var d := DeletePath(paths[i].path, fs);
      After(calls, Clean(paths[i..], fs)) == After(calls + d.calls, Clean(paths[i + 1..], d.fs))
  {
    assert paths[i..][1..] == paths[i + 1..];
  }

  /** A file-gated user procedure is called at most once per run, with exactly the bound arguments. */
  lemma FileCheckCallsAtMostOnce(target: Path, deps: seq<TaskName>, id: nat, args: seq<Value>, fs: FileSystem, env: UserBehaviour)
    ensures var e := Apply(WithFileCheck(target, deps, UserProcedure(id)), args, fs, env);
      (e.calls == [] && e == NoEffect(fs)) || e.calls == [UserCall(id, args)]
    ensures (target !in fs) ==> Apply(WithFileCheck(target, deps, UserProcedure(id)), args, fs, env).calls == [UserCall(id, args)]
    ensures (target in fs && fs[target].Dir?) ==> Apply(WithFileCheck(target, deps, UserProcedure(id)), args, fs, env) == NoEffect(fs)
  {
  }

  /**
   * Dependencies that are symbolic names, missing paths or directories never
   * make a file task stale: adding them to the dependency list changes nothing.
   */
  lemma {:induction false} NonFileDependenciesIgnored(target: Path, deps: seq<TaskName>, extra: seq<TaskName>, fs: FileSystem)
    requires forall j :: 0 <= j < |extra| ==> extra[j].Symbol? || extra[j].path !in fs || fs[extra[j].path].Dir?
    ensures ShouldRun(target, deps + extra, fs) == ShouldRun(target, deps, fs)
  {
    if target in fs && fs[target].File? {
      var m := fs[target].mtime;
      forall j | |deps| <= j < |deps + extra|
        ensures !IsNewerFile((deps + extra)[j], m, fs)
      {
        assert (deps + extra)[j] == extra[j - |deps|];
      }
      if exists i :: 0 <= i < |deps + extra| && IsNewerFile((deps + extra)[i], m, fs) {
        var i :| 0 <= i < |deps + extra| && IsNewerFile((deps + extra)[i], m, fs);
        assert (deps + extra)[i] == deps[i];
      }
      if exists i :: 0 <= i < |deps| && IsNewerFile(deps[i], m, fs) {
        var i :| 0 <= i < |deps| && IsNewerFile(deps[i], m, fs);
        assert (deps + extra)[i] == deps[i];
      }
    }
  }

  /** Touching a directory (changing its modification time) never makes a file task stale. */
  lemma DirectoryTimestampIgnored(target: Path, deps: seq<TaskName>, fs: FileSystem, dir: Path, mtime: int)
    requires dir in fs && fs[dir].Dir?
    ensures ShouldRun(target, deps, fs[dir := Dir(mtime)]) == ShouldRun(target, deps, fs)
  {
    var fs' := fs[dir := Dir(mtime)];
    assert forall d, m :: IsNewerFile(d, m, fs') == IsNewerFile(d, m, fs);
  }

  /**
   * Idempotence of a file task: once a run has left the target an existing
   * file no older than any file dependency, running it again does nothing.
   */
  lemma UpToDateTargetIsNotRebuilt(target: Path, deps: seq<TaskName>, inner: Procedure, args: seq<Value>, fs: FileSystem, env: UserBehaviour)
    requires target in fs && fs[target].File?
    requires forall i :: 0 <= i < |deps| && deps[i].PathName? && deps[i].path in fs && fs[deps[i].path].File? ==>
      fs[deps[i].path].mtime <= fs[target].mtime
    ensures Apply(WithFileCheck(target, deps, inner), args, fs, env) == NoEffect(fs)
  {
  }

  /**
   * A `directory` task creates its directory when it is missing, and running
   * it a second time no longer calls `mkdir`.
   */
  lemma DirectoryTaskRunsOnce(p: Path, deps: seq<TaskName>, fs: FileSystem, env: UserBehaviour)
    requires p !in fs && forall a :: a in Ancestors(p) && a in fs ==> fs[a].Dir?
    ensures var first := Apply(WithFileCheck(p, deps, MakeDirectory), [PathArg(p)], fs, env);
      && !first.raised && first.calls == [Mkdir(p)]
      && p in first.fs && first.fs[p].Dir?
      && Apply(WithFileCheck(p, deps, MakeDirectory), [PathArg(p)], first.fs, env) == NoEffect(first.fs)
  {
  }

  /**
   * After `clean_procedure` over paths only: nothing raised, every listed path
   * is gone, and every other entry that survives is unchanged; entries not
   * below any listed path all survive.
   */
  lemma {:induction false} CleanRemovesListedPaths(paths: seq<Value>, fs: FileSystem)
    requires forall i :: 0 <= i < |paths| ==> paths[i].PathArg?
    ensures var e := Clean(paths, fs);
      && !e.raised
      && (forall i :: 0 <= i < |paths| ==> paths[i].path !in e.fs)
      && (forall q :: q in e.fs ==> q in fs && e.fs[q] == fs[q])
      && (forall q :: q in fs && (forall i :: 0 <= i < |paths| ==> !IsAncestorOrSelf(paths[i].path, q)) ==> q in e.fs)
  {
    if paths != [] {
      var p := paths[0].path;
      var d := DeletePath(p, fs);
      assert p !in d.fs;
      assert forall q :: q in d.fs ==> q in fs && d.fs[q] == fs[q];
      assert forall q :: q in fs && !IsAncestorOrSelf(p, q) ==> q in d.fs;
      CleanRemovesListedPaths(paths[1..], d.fs);
      var e := Clean(paths, fs);
      assert e.fs == Clean(paths[1..], d.fs).fs;
      forall i | 0 <= i < |paths|
        ensures paths[i].path !in e.fs
      {
        if i > 0 {
          assert paths[i] == paths[1..][i - 1];
        }
      }
      forall q | q in fs && (forall i :: 0 <= i < |paths| ==> !IsAncestorOrSelf(paths[i].path, q))
        ensures q in e.fs
      {
        assert !IsAncestorOrSelf(paths[0].path, q);
        forall i | 0 <= i < |paths[1..]|
          ensures !IsAncestorOrSelf(paths[1..][i].path, q)
        {
          assert paths[1..][i] == paths[i + 1];
        }
      }
    }
  }
}
