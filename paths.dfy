/**
 * Absolute, cleaned file-system paths as the sequence of their components below the root.
 * Only the parts of Go's `path/filepath` that the browser uses on such paths are modelled.
 */
module Paths {
  import opened Text

  /** `[]` is the root `/`; `["tmp", "x"]` is `/tmp/x`. */
  type Path = seq<string>

  /** `filepath.Dir(p)`, which equals `filepath.Clean(filepath.Join(p, ".."))`: the root is its own parent. */
  function Parent(p: Path): (r: Path)
    ensures p == [] ==> r == []
    ensures p != [] ==> |r| == |p| - 1 && r + [p[|p| - 1]] == p
  {
    if p == [] then [] else p[..|p| - 1]
  }

  /** `filepath.Base(p)`: the last component, or `/` for the root. */
  function Base(p: Path): string {
    if p == [] then "/" else p[|p| - 1]
  }

  /** The path as Go prints it: `/` for the root, otherwise `/` before every component. */
  function PathString(p: Path): (r: string)
    ensures r != [] && r[0] == '/'
  {
    if p == [] then "/"
    else if |p| == 1 then "/" + p[0]
    else PathString(p[..|p| - 1]) + "/" + p[|p| - 1]
  }

  /** Removes every trailing `/`, as `filepath.Clean` does to the last element of a join. */
  function StripSlashes(s: string): (r: string)
    ensures r == [] || r[|r| - 1] != '/'
    ensures |r| <= |s|
  {
    if s != [] && s[|s| - 1] == '/' then StripSlashes(s[..|s| - 1]) else s
  }

  /**
   * `filepath.Join(dir, name)` for a `name` that is one file name, possibly followed by slashes
   * (what the cleaner produces from a pane item): an empty name leaves `dir` as it is; otherwise the
   * result is the child of `dir` named `name` without its slashes, so going up from it returns to `dir`.
   */
  function Join(dir: Path, name: string): (r: Path)
    ensures StripSlashes(name) == [] ==> r == dir
    ensures StripSlashes(name) != [] ==> Parent(r) == dir && Base(r) == StripSlashes(name)
    ensures |dir| <= |r| <= |dir| + 1 && r[..|dir|] == dir
  {
    var c := StripSlashes(name);
    if c == [] then dir
    else
      assert (dir + [c])[..|dir|] == dir;
      dir + [c]
  }

  /** The directory item `n/` joins to the child named `n`. */
  lemma JoinDirectoryName(dir: Path, n: string)
    requires n != [] && n[|n| - 1] != '/'
    ensures Join(dir, n + "/") == dir + [n]
  {
    assert (n + "/")[..|n + "/"| - 1] == n;
    assert StripSlashes(n + "/") == StripSlashes(n) == n;
  }
}
