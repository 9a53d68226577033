/**
 * Local paths as sequences of segments. `path.join(dir, name)` and
 * `dir + '\\' + name` on Windows both append one segment; the first segment
 * is the volume (`C:`), which the program never creates.
 */
module Paths {

  type Path = seq<string>

  /** `path.join(dir, name)`, and the `dir + '\\' + title` of the pull pass. */
  function Join(dir: Path, name: string): (p: Path)
    ensures |p| == |dir| + 1 && p[..|dir|] == dir && p[|dir|] == name
  {
    dir + [name]
  }

  /** `path.basename(p)`: the last segment. */
  function Basename(p: Path): (n: string)
    ensures p != [] ==> p == Join(p[..|p| - 1], n)
  {
    if p == [] then "" else p[|p| - 1]
  }

  /** `p` names an entry directly inside `dir`. */
  predicate ChildPath(p: Path, dir: Path)
  {
    |p| == |dir| + 1 && p[..|dir|] == dir
  }

  lemma ChildPathIsJoin(p: Path, dir: Path)
    requires ChildPath(p, dir)
    ensures p == Join(dir, Basename(p)) && Parent(p) == dir
  {
  }

  /** The directory that holds `p`. */
  function Parent(p: Path): (d: Path)
    requires |p| > 0
    ensures |d| == |p| - 1
  {
    p[..|p| - 1]
  }

  /** `p` is `q` or an ancestor of `q`. */
  predicate IsPrefix(p: Path, q: Path)
  {
    |p| <= |q| && q[..|p|] == p
  }

  /** No name occurs twice. */
  predicate NoDup<T(==)>(s: seq<T>)
  {
    forall i, j :: 0 <= i < j < |s| ==> s[i] != s[j]
  }

  /** `names` lists the members of `s`, each once, in some order. */
  predicate IsListing(names: seq<string>, s: set<string>)
  {
    NoDup(names) && (forall n :: n in names ==> n in s) && (forall n :: n in s ==> n in names)
  }

  lemma ChildPrefix(dir: Path, m: string, n: string)
    ensures IsPrefix(Join(dir, m), Join(dir, n)) <==> m == n
  {
    if IsPrefix(Join(dir, m), Join(dir, n)) {
      assert Join(dir, n)[|dir|] == Join(dir, m)[|dir|];
    }
  }
}
