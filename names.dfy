/**
 * Names and the abstract filesystem shared by every part of the model
 * (`TaskName` in kumade/task.py, and the `pathlib.Path` values the builders,
 * the loader and the CLI work with).
 */
module Names {

  /**
   * An absolute, normalised filesystem path, given by its components from the
   * root; the root itself is `Path([])`.
   */
  datatype Path = Path(parts: seq<string>)

  /** `path.parent`: the root is its own parent. */
  function Parent(p: Path): (q: Path)
    ensures p.parts == [] ==> q == p
    ensures p.parts != [] ==> |q.parts| == |p.parts| - 1 && IsAncestorOrSelf(q, p)
  {
    if p.parts == [] then p else Path(p.parts[..|p.parts| - 1])
  }

  /** `directory / name`. */
  function Child(dir: Path, name: string): (p: Path)
    ensures |p.parts| == |dir.parts| + 1 && Parent(p) == dir && p.parts[|dir.parts|] == name
  {
    Path(dir.parts + [name])
  }

  /** `a` is `p` or one of the directories above it. */
  predicate IsAncestorOrSelf(a: Path, p: Path)
  {
    |a.parts| <= |p.parts| && a.parts == p.parts[..|a.parts|]
  }

  /** The directories strictly above `p`. */
  function Ancestors(p: Path): (s: set<Path>)
    ensures forall a :: a in s <==> IsAncestorOrSelf(a, p) && a != p
  {
    var s := set k | 0 <= k < |p.parts| :: Path(p.parts[..k]);
    assert forall a :: IsAncestorOrSelf(a, p) && a != p ==> a == Path(p.parts[..|a.parts|]) && |a.parts| < |p.parts|;
    s
  }

  /** `sep.join(parts)`. */
  function Join(sep: string, parts: seq<string>): string
  {
    if parts == [] then ""
    else if |parts| == 1 then parts[0]
    else parts[0] + sep + Join(sep, parts[1..])
  }

  /** `str(path)` for an absolute path: "/" followed by the components joined by "/". */
  function PathToString(p: Path): string
  {
    "/" + Join("/", p.parts)
  }

  /** `TaskName = Union[str, Path]`: a symbolic name or a path; the two kinds never compare equal. */
  datatype TaskName = Symbol(name: string) | PathName(path: Path)

  /** `str(name)`. */
  function NameToString(n: TaskName): string
  {
    match n
    case Symbol(s) => s
    case PathName(p) => PathToString(p)
  }

  /** A bound argument of a task procedure: a path, or any other value given by its `str`. */
  datatype Value = PathArg(path: Path) | Other(repr: string)

  /** What exists at a path: a file or a directory, each with its modification time. */
  datatype Node = File(mtime: int) | Dir(mtime: int)

  /** The filesystem: a path that is not a key does not exist. */
  type FileSystem = map<Path, Node>
}
