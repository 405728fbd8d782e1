/**
 * File-system paths as `pathlib.Path` handles them in the journal: a sequence
 * of components, `dir / name` appending one component, `.name` the last one.
 * The empty path is the working directory.
 */
module Paths {

  datatype Path = Path(parts: seq<string>)

  /** `path.name`: the final component, or "" for the working directory. */
  function Name(p: Path): string {
    if |p.parts| == 0 then "" else p.parts[|p.parts| - 1]
  }

  /** `path.parent`: everything but the final component. */
  function Parent(p: Path): Path {
    if |p.parts| == 0 then p else Path(p.parts[..|p.parts| - 1])
  }

  /** `dir / name` for a name that is one component. */
  function Join(dir: Path, name: string): (p: Path)
    ensures Parent(p) == dir && Name(p) == name
    ensures |p.parts| == |dir.parts| + 1
  {
    Path(dir.parts + [name])
  }

  /**
   * The directories `dir.mkdir(parents=True)` makes sure exist: `dir` itself and
   * every leading part of it (the working directory always exists).
   */
  function Ancestors(dir: Path): (r: set<Path>)
    ensures |dir.parts| > 0 ==> dir in r
    ensures forall q :: q in r ==> 0 < |q.parts| <= |dir.parts| && q.parts == dir.parts[..|q.parts|]
    ensures forall i :: 1 <= i <= |dir.parts| ==> Path(dir.parts[..i]) in r
  {
    var r := set i | 1 <= i <= |dir.parts| :: Path(dir.parts[..i]);
    assert |dir.parts| > 0 ==> dir == Path(dir.parts[..|dir.parts|]);
    r
  }
}
