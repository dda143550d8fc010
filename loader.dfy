/**
 * The Kumadefile loader (kumade/loader.py): finds the Kumadefile by
 * searching upwards from the working directory, and loads at most one
 * Kumadefile per process.
 */
module Loader {
  import opened Wrappers
  import opened Names

  /** A directory holds a Kumadefile under one of the two accepted names. */
  predicate HasKumadefile(fs: FileSystem, dir: Path)
  {
    Child(dir, "Kumadefile.py") in fs || Child(dir, "kumadefile.py") in fs
  }

  /** The Kumadefile of a directory that has one, the capitalised name first. */
  function KumadefileIn(fs: FileSystem, dir: Path): Path
  {
    if Child(dir, "Kumadefile.py") in fs then Child(dir, "Kumadefile.py") else Child(dir, "kumadefile.py")
  }

  /**
   * `__search_kumadefile`: the Kumadefile of the nearest directory, from
   * `dir` up to the root, that has one; refused when none has.
   */
  function SearchKumadefile(fs: FileSystem, dir: Path): (r: Result<Path, string>)
    ensures r.Success? <==> exists a :: IsAncestorOrSelf(a, dir) && HasKumadefile(fs, a)
    ensures r.Success? ==>
      exists a ::
        && IsAncestorOrSelf(a, dir) && HasKumadefile(fs, a) && r.value == KumadefileIn(fs, a)
        && forall b :: IsAncestorOrSelf(b, dir) && |b.parts| > |a.parts| ==> !HasKumadefile(fs, b)
    decreases |dir.parts|
  {
    if HasKumadefile(fs, dir) then Success(KumadefileIn(fs, dir))
    else if Parent(dir) == dir then
      assert forall a :: IsAncestorOrSelf(a, dir) ==> a == dir;
      Failure("Kumadefile.py is not found.")
    else
      var r := SearchKumadefile(fs, Parent(dir));
      AncestorsOfParent(dir);
      r
  }

  /** The directories at or above a non-root `dir` are `dir` itself and those at or above its parent. */
  lemma AncestorsOfParent(dir: Path)
    requires dir.parts != []
    ensures forall a :: IsAncestorOrSelf(a, dir) <==> a == dir || IsAncestorOrSelf(a, Parent(dir))
  {
  }

  /** The Kumadefile `load` settles on: the given path, or the one found from `cwd`. */
  function LoadTarget(kumadefile: Option<Path>, cwd: Path, fs: FileSystem): Result<Path, string>
  {
    if kumadefile.Some? then Success(kumadefile.value) else SearchKumadefile(fs, cwd)
  }

  /** `load` goes through: there is a Kumadefile to load, and no different one was loaded before. */
  predicate Loads(loaded: Option<Path>, kumadefile: Option<Path>, cwd: Path, fs: FileSystem)
  {
    var target := LoadTarget(kumadefile, cwd, fs);
    target.Success? && (loaded.None? || loaded == Some(target.value))
  }

  class KumadefileLoader {
    /** `loaded_kumadefile`: `None` until a Kumadefile is loaded. */
    var loaded: Option<Path>
    /** The directories added to the module search path, oldest first. */
    var searchPath: seq<Path>
    /** The Kumadefiles executed, in order. */
    var executed: seq<Path>

    constructor()
      ensures loaded == None && searchPath == [] && executed == []
    {
      loaded := None;
      searchPath := [];
      executed := [];
    }

    /**
     * `load`: with no path given, the Kumadefile is searched for from the
     * working directory `cwd`. The first load executes the Kumadefile and
     * records it; loading the same path again does nothing; loading a
     * different path is refused and changes nothing.
     */
    method Load(kumadefile: Option<Path>, cwd: Path, fs: FileSystem) returns (r: Result<(), string>)
      modifies this
      ensures r.Success? <==> Loads(old(loaded), kumadefile, cwd, fs)
      ensures var target := LoadTarget(kumadefile, cwd, fs);
        && (target.Failure? ==> r.Failure? && loaded == old(loaded) && searchPath == old(searchPath) && executed == old(executed))
        && (target.Success? && old(loaded) == Some(target.value) ==>
              r.Success? && loaded == old(loaded) && searchPath == old(searchPath) && executed == old(executed))
        && (target.Success? && old(loaded).Some? && old(loaded) != Some(target.value) ==>
              r.Failure? && loaded == old(loaded) && searchPath == old(searchPath) && executed == old(executed))
        && (target.Success? && old(loaded).None? ==>
              && r.Success? && loaded == Some(target.value)
              && searchPath == old(searchPath) + [Parent(target.value)] && executed == old(executed) + [target.value])
    {
      var path: Path;
      if kumadefile.None? {
        var found := SearchKumadefile(fs, cwd);
        if found.Failure? {
          return Failure(found.error);
        }
        path := found.value;
      } else {
        path := kumadefile.value;
      }
      if loaded.Some? {
        if loaded.value == path {
          return Success(());
        }
        return Failure("Trying to load a different kumadefile.");
      }
      searchPath := searchPath + [Parent(path)];
      executed := executed + [path];
      loaded := Some(path);
      r := Success(());
    }
  }
}
