/**
 * The two local-folder helpers of the pull direction: `ensureFolderExistsSync`,
 * which creates a folder and its missing ancestors, and `rmdirSync`, which
 * removes a file or a whole directory tree.
 */
module LocalFolders {
  import opened Wrappers
  import opened Paths
  import opened LocalFs

  /**
   * `mkdirSync` on `parts[..i]`, `parts[..i+1]`, ..., `parts`, in that order,
   * tolerating EEXIST and stopping at the first other error.
   */
  function MkdirPrefixes(fs: Tree, parts: Path, i: nat): (r: (Outcome<Errno>, Tree))
    requires i >= 2
    ensures WellFormed(fs) ==> WellFormed(r.1)
    ensures r.0 != Fail(EEXIST)
    decreases |parts| + 1 - i
  {
    if i > |parts| then (Pass, fs)
    else
      var made := MkdirSys(fs, parts[..i]);
      if made.0.Fail? && made.0.error != EEXIST then made
      else MkdirPrefixes(made.1, parts, i + 1)
  }

  /**
   * The walk only adds: every entry stays as it was, and each new entry is
   * a directory at a prefix `parts[..j]` with `j >= i`.
   */
  lemma {:induction false} MkdirPrefixesExtends(fs: Tree, parts: Path, i: nat)
    requires i >= 2
    ensures var after := MkdirPrefixes(fs, parts, i).1;
            (forall q :: q in fs ==> q in after && after[q] == fs[q]) &&
            (forall q :: q in after && q !in fs ==> after[q] == DirStat && i <= |q| <= |parts| && q == parts[..|q|])
    decreases |parts| + 1 - i
  {
    if i <= |parts| {
      var made := MkdirSys(fs, parts[..i]);
      if !(made.0.Fail? && made.0.error != EEXIST) {
        MkdirPrefixesExtends(made.1, parts, i + 1);
      }
    }
  }

  /** A walk that gets through leaves every prefix it visited in place. */
  lemma {:induction false} MkdirPrefixesReaches(fs: Tree, parts: Path, i: nat)
    requires i >= 2
    ensures var r := MkdirPrefixes(fs, parts, i);
            r.0.Pass? ==> forall j :: i <= j <= |parts| ==> parts[..j] in r.1
    decreases |parts| + 1 - i
  {
    if i <= |parts| {
      var made := MkdirSys(fs, parts[..i]);
      if !(made.0.Fail? && made.0.error != EEXIST) {
        MkdirPrefixesReaches(made.1, parts, i + 1);
        MkdirPrefixesExtends(made.1, parts, i + 1);
      }
    }
  }

  /**
   * What `ensureFolderExistsSync(localFolderPath)` does to the disk: the
   * prefixes of two or more segments, shortest first. The volume
   * `parts[..1]` is never attempted.
   */
  function EnsureFolder(fs: Tree, parts: Path): (r: (Outcome<Errno>, Tree))
    ensures WellFormed(fs) ==> WellFormed(r.1)
    ensures r.0 != Fail(EEXIST)
  {
    MkdirPrefixes(fs, parts, 2)
  }

  /** Every prefix that must already be a directory for the walk to get through. */
  predicate Materializable(fs: Tree, parts: Path)
  {
    |parts| < 2 ||
    (IsDir(fs, parts[..1]) && forall j :: 2 <= j < |parts| ==> parts[..j] !in fs || IsDir(fs, parts[..j]))
  }

  lemma {:induction false} MkdirPrefixesIdempotent(fs: Tree, parts: Path, i: nat)
    requires i >= 2
    ensures MkdirPrefixes(MkdirPrefixes(fs, parts, i).1, parts, i) == MkdirPrefixes(fs, parts, i)
    decreases |parts| + 1 - i
  {
    if i <= |parts| {
      var made := MkdirSys(fs, parts[..i]);
      if !(made.0.Fail? && made.0.error != EEXIST) {
        MkdirPrefixesIdempotent(made.1, parts, i + 1);
        MkdirPrefixesExtends(made.1, parts, i + 1);
        var fs1 := MkdirPrefixes(fs, parts, i).1;
        assert parts[..i] in made.1;
        assert MkdirSys(fs1, parts[..i]) == (Fail(EEXIST), fs1);
      }
    }
  }

  /**
   * Running `ensureFolderExistsSync` twice has the effect of running it once,
   * with the same outcome, whether the first run succeeded or threw.
   */
  lemma EnsureFolderIdempotent(fs: Tree, parts: Path)
    ensures EnsureFolder(EnsureFolder(fs, parts).1, parts) == EnsureFolder(fs, parts)
  {
    MkdirPrefixesIdempotent(fs, parts, 2);
  }

  /** No prefix of `parts` from length `i` on, short of the whole path, is a file. */
  predicate NoFileFrom(fs: Tree, parts: Path, i: nat)
  {
    forall j :: i <= j < |parts| ==> parts[..j] !in fs || IsDir(fs, parts[..j])
  }

  /** Making the directory `parts[..i]`, where nothing or a directory was, moves the condition on by one prefix. */
  lemma NoFileFromNext(fs: Tree, after: Tree, parts: Path, i: nat)
    requires i <= |parts| && (parts[..i] !in fs || IsDir(fs, parts[..i]))
    requires after == fs || after == fs[parts[..i] := DirStat]
    ensures NoFileFrom(after, parts, i + 1) <==> NoFileFrom(fs, parts, i)
  {
    forall j | i < j < |parts|
      ensures (parts[..j] !in after || IsDir(after, parts[..j])) <==> (parts[..j] !in fs || IsDir(fs, parts[..j]))
    {
      assert |parts[..j]| != |parts[..i]|;
    }
  }

  lemma {:induction false} MkdirPrefixesSucceeds(fs: Tree, parts: Path, i: nat)
    requires WellFormed(fs) && 2 <= i
    requires i <= |parts| ==> IsDir(fs, parts[..i - 1])
    ensures MkdirPrefixes(fs, parts, i).0.Pass? <==> NoFileFrom(fs, parts, i)
    decreases |parts| + 1 - i
  {
    if i <= |parts| {
      var here := parts[..i];
      var made := MkdirSys(fs, here);
      assert Parent(here) == parts[..i - 1];
      if IsDir(made.1, here) {
        if i < |parts| {
          assert Parent(parts[..i + 1]) == here;
        }
        MkdirPrefixesSucceeds(made.1, parts, i + 1);
        NoFileFromNext(fs, made.1, parts, i);
      } else if i < |parts| {
        // a file at parts[..i]: the next mkdir meets a file where it needs a directory
        assert Parent(parts[..i + 1]) == here;
        assert parts[..i + 1] !in made.1;
      }
    }
  }

  /**
   * `ensureFolderExistsSync` succeeds exactly when the volume is a directory
   * and no proper prefix of the path is a file (a file at the path itself
   * still passes, its EEXIST being swallowed; a pass then fails at
   * `readdirSync`); afterwards the path exists and every proper prefix of it
   * is a directory.
   */
  lemma EnsureFolderSucceeds(fs: Tree, parts: Path)
    requires WellFormed(fs)
    ensures EnsureFolder(fs, parts).0.Pass? <==> Materializable(fs, parts)
    ensures EnsureFolder(fs, parts).0.Pass? && |parts| >= 2 ==>
              parts in EnsureFolder(fs, parts).1 &&
              forall j :: 1 <= j < |parts| ==> IsDir(EnsureFolder(fs, parts).1, parts[..j])
  {
    var after := EnsureFolder(fs, parts);
    if |parts| >= 2 {
      if IsDir(fs, parts[..1]) {
        MkdirPrefixesSucceeds(fs, parts, 2);
      } else {
        assert Parent(parts[..2]) == parts[..1];
        assert parts[..2] !in fs;
      }
      if after.0.Pass? {
        MkdirPrefixesReaches(fs, parts, 2);
        assert parts[..|parts|] == parts;
        forall j | 1 <= j < |parts| ensures IsDir(after.1, parts[..j]) {
          AncestorsAreDirs(after.1, parts, j);
        }
      }
    }
  }

  /** The volume `parts[..1]` is neither created nor removed. */
  lemma EnsureFolderSparesVolume(fs: Tree, parts: Path)
    requires |parts| >= 1
    ensures parts[..1] in EnsureFolder(fs, parts).1 <==> parts[..1] in fs
  {
    MkdirPrefixesExtends(fs, parts, 2);
  }

  /**
   * Inside an existing directory, materialising one more segment creates that
   * one directory when nothing is there and changes nothing otherwise.
   */
  lemma EnsureChildFolder(fs: Tree, dir: Path, name: string)
    requires WellFormed(fs) && IsDir(fs, dir)
    ensures EnsureFolder(fs, Join(dir, name)) ==
            (Pass, if Join(dir, name) in fs then fs else fs[Join(dir, name) := DirStat])
  {
    var p := Join(dir, name);
    var after := EnsureFolder(fs, p);
    forall j | 1 <= j < |p| ensures IsDir(fs, p[..j]) {
      if j == |dir| { assert p[..j] == dir; } else {
        AncestorsAreDirs(fs, dir, j);
        assert p[..j] == dir[..j];
      }
    }
    EnsureFolderSucceeds(fs, p);
    MkdirPrefixesExtends(fs, p, 2);
    MkdirPrefixesReaches(fs, p, 2);
    assert after.0.Pass?;
    assert p[..|p|] == p;
    forall q | q in after.1 && q !in fs ensures q == p {
    }
    assert after.1 == if p in fs then fs else fs[p := DirStat];
  }

  /**
   * `rmdirSync(p)`: a directory loses its entries one by one, depth first,
   * and then itself; a file is unlinked. Afterwards nothing at or below `p`
   * is left and nothing else has changed.
   */
  method RmdirSync(disk: Disk, p: Path)
    requires disk.Valid() && p in disk.fs
    modifies disk
    ensures disk.Valid()
    ensures disk.fs == RemoveSubtrees(old(disk.fs), {p})
    decreases Subtree(disk.fs, p)
  {
    if disk.fs[p].DirStat? {
      var _, names := disk.Readdir(p);
      ghost var fs0 := disk.fs;
      var k := 0;
      while k < |names|
        invariant 0 <= k <= |names|
        invariant disk.Valid()
        invariant disk.fs == RemoveSubtrees(fs0, ChildRoots(p, names, k))
      {
        var child := Join(p, names[k]);
        ChildSurvives(fs0, p, names, k);
        SubtreeShrinks(fs0, disk.fs, p, names[k]);
        RmdirSync(disk, child);
        RemoveOneMore(fs0, p, names, k);
        k := k + 1;
      }
      NoChildrenLeft(fs0, p, names);
      var _ := disk.Rmdir(p);
      WholeTreeGone(fs0, p, names);
    } else {
      var _ := disk.Unlink(p);
      FileSubtree(old(disk.fs), p);
    }
  }

  /** The entries of `p` that the depth-first removal has handled so far. */
  function ChildRoots(p: Path, names: seq<string>, k: nat): set<Path>
    requires k <= |names|
  {
    set j | 0 <= j < k :: Join(p, names[j])
  }

  lemma ChildSurvives(fs0: Tree, p: Path, names: seq<string>, k: nat)
    requires IsListing(names, Children(fs0, p)) && k < |names|
    ensures Join(p, names[k]) in RemoveSubtrees(fs0, ChildRoots(p, names, k))
  {
    forall t | t in ChildRoots(p, names, k) ensures !IsPrefix(t, Join(p, names[k])) {
      var j :| 0 <= j < k && t == Join(p, names[j]);
      ChildPrefix(p, names[j], names[k]);
    }
  }

  lemma SubtreeShrinks(fs0: Tree, fs: Tree, p: Path, name: string)
    requires p in fs0 && fs.Keys <= fs0.Keys
    ensures Subtree(fs, Join(p, name)) < Subtree(fs0, p)
  {
    assert p !in Subtree(fs, Join(p, name));
    assert p in Subtree(fs0, p);
    forall q | q in Subtree(fs, Join(p, name)) ensures q in Subtree(fs0, p) {
      assert q[..|p|] == Join(p, name)[..|p|];
    }
  }

  lemma RemoveOneMore(fs0: Tree, p: Path, names: seq<string>, k: nat)
    requires k < |names|
    ensures RemoveSubtrees(RemoveSubtrees(fs0, ChildRoots(p, names, k)), {Join(p, names[k])}) ==
            RemoveSubtrees(fs0, ChildRoots(p, names, k + 1))
  {
    assert ChildRoots(p, names, k + 1) == ChildRoots(p, names, k) + {Join(p, names[k])};
  }

  lemma NoChildrenLeft(fs0: Tree, p: Path, names: seq<string>)
    requires IsListing(names, Children(fs0, p))
    ensures Children(RemoveSubtrees(fs0, ChildRoots(p, names, |names|)), p) == {}
  {
    var fs := RemoveSubtrees(fs0, ChildRoots(p, names, |names|));
    forall n | n in names ensures Join(p, n) !in fs {
      var j :| 0 <= j < |names| && names[j] == n;
      assert Join(p, n) in ChildRoots(p, names, |names|);
      assert IsPrefix(Join(p, n), Join(p, n));
    }
  }

  lemma DeepEntryUnderChild(fs0: Tree, p: Path, names: seq<string>, q: Path)
    requires WellFormed(fs0) && IsListing(names, Children(fs0, p))
    requires q in fs0 && IsPrefix(p, q) && q != p
    ensures exists t :: t in ChildRoots(p, names, |names|) && IsPrefix(t, q)
  {
    var c := Join(p, q[|p|]);
    assert c == q[..|p| + 1];
    if |p| + 1 < |q| {
      AncestorsAreDirs(fs0, q, |p| + 1);
    } else {
      assert c == q;
    }
    var j :| 0 <= j < |names| && names[j] == q[|p|];
    assert c in ChildRoots(p, names, |names|);
  }

  lemma ChildRootUnderParent(p: Path, names: seq<string>, t: Path, q: Path)
    requires t in ChildRoots(p, names, |names|) && IsPrefix(t, q)
    ensures IsPrefix(p, q)
  {
    var j :| 0 <= j < |names| && t == Join(p, names[j]);
    assert q[..|p|] == t[..|p|];
  }

  lemma WholeTreeGone(fs0: Tree, p: Path, names: seq<string>)
    requires WellFormed(fs0) && p in fs0 && IsListing(names, Children(fs0, p))
    ensures RemoveSubtrees(fs0, ChildRoots(p, names, |names|)) - {p} == RemoveSubtrees(fs0, {p})
  {
    var lhs := RemoveSubtrees(fs0, ChildRoots(p, names, |names|)) - {p};
    var rhs := RemoveSubtrees(fs0, {p});
    WholeTreeKeys(fs0, p, names);
    SameEntries(lhs, rhs, fs0);
  }

  /** Two trees that hold the same paths, each as `fs` has it, are one tree. */
  lemma SameEntries(a: Tree, b: Tree, fs: Tree)
    requires forall q :: q in a <==> q in b
    requires forall q :: q in a ==> q in fs && a[q] == fs[q]
    requires forall q :: q in b ==> q in fs && b[q] == fs[q]
    ensures a == b
  {
  }

  /** Removing every child's tree and then the folder leaves the same entries as removing the folder's tree. */
  lemma WholeTreeKeys(fs0: Tree, p: Path, names: seq<string>)
    requires WellFormed(fs0) && IsListing(names, Children(fs0, p))
    ensures forall q :: q in RemoveSubtrees(fs0, ChildRoots(p, names, |names|)) && q != p <==> q in RemoveSubtrees(fs0, {p})
  {
    forall q ensures q in RemoveSubtrees(fs0, ChildRoots(p, names, |names|)) && q != p <==> q in RemoveSubtrees(fs0, {p}) {
      if q in RemoveSubtrees(fs0, ChildRoots(p, names, |names|)) && q != p {
        OutsideChildrenOutside(fs0, p, names, q);
      }
      if q in RemoveSubtrees(fs0, {p}) {
        OutsideParentOutsideChildren(fs0, p, names, q);
      }
    }
  }

  /** An entry outside every child's tree, other than the folder itself, is outside the folder's tree. */
  lemma OutsideChildrenOutside(fs0: Tree, p: Path, names: seq<string>, q: Path)
    requires WellFormed(fs0) && IsListing(names, Children(fs0, p))
    requires q in RemoveSubtrees(fs0, ChildRoots(p, names, |names|)) && q != p
    ensures q in RemoveSubtrees(fs0, {p})
  {
    if IsPrefix(p, q) {
      DeepEntryUnderChild(fs0, p, names, q);
    }
  }

  /** An entry outside the folder's tree is outside every child's tree, and is not the folder. */
  lemma OutsideParentOutsideChildren(fs0: Tree, p: Path, names: seq<string>, q: Path)
    requires q in RemoveSubtrees(fs0, {p})
    ensures q in RemoveSubtrees(fs0, ChildRoots(p, names, |names|)) && q != p
  {
    assert !IsPrefix(p, q);
    forall t | t in ChildRoots(p, names, |names|) ensures !IsPrefix(t, q) {
      if IsPrefix(t, q) { ChildRootUnderParent(p, names, t, q); }
    }
  }

  /**
   * `ensureFolderExistsSync(localFolderPath)`: `mkdirSync` on every prefix of
   * two or more segments, rethrowing any error but EEXIST.
   */
  method EnsureFolderExistsSync(disk: Disk, localFolderPath: Path) returns (r: Outcome<Errno>)
    requires disk.Valid()
    modifies disk
    ensures disk.Valid()
    ensures (r, disk.fs) == EnsureFolder(old(disk.fs), localFolderPath)
  {
    var parts := localFolderPath;
    var i := 2;
    while i <= |parts|
      invariant 2 <= i <= |parts| + 2
      invariant disk.Valid()
      invariant MkdirPrefixes(disk.fs, parts, i) == EnsureFolder(old(disk.fs), parts)
      decreases |parts| + 1 - i
    {
      var e := disk.Mkdir(parts[..i]);
      if e.Fail? && e.error != EEXIST {
        return e;
      }
      i := i + 1;
    }
    r := Pass;
  }
}
