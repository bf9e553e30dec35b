/**
 * File-system paths as sequences of components, the way `std::path`
 * splits them. `CurDir` components and platform prefixes are not modelled.
 */
module Paths {
  import opened Wrappers

  datatype Component = RootDir | ParentDir | Normal(name: string)

  type Path = seq<Component>

  /** `Path::file_name`: the final component when it is a normal one. */
  function FileName(p: Path): (r: Option<string>)
    ensures r.Some? <==> |p| > 0 && p[|p| - 1].Normal?
    ensures r.Some? ==> r.value == p[|p| - 1].name
  {
    if |p| > 0 && p[|p| - 1].Normal? then Some(p[|p| - 1].name) else None
  }

  /** `Path::join` with a single relative component. */
  function Join(dir: Path, name: string): (r: Path)
    ensures |r| == |dir| + 1 && r[..|dir|] == dir
    ensures FileName(r) == Some(name)
  {
    dir + [Normal(name)]
  }
}
