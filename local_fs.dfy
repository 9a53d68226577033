/**
 * The local filesystem that the program drives through Node's synchronous
 * `fs` calls, as a flat map from paths to what `fs.statSync` reports. A
 * well-formed map holds, for every entry below the volume, its directory.
 */
module LocalFs {
  import opened Wrappers
  import opened Fingerprint
  import opened Paths

  datatype Stat = FileStat(content: Bytes) | DirStat

  /** The error codes the model's syscalls raise. */
  datatype Errno = EEXIST | ENOENT | ENOTDIR | ENOTEMPTY | EISDIR

  type Tree = map<Path, Stat>

  /** Every entry has a volume segment, and every non-volume entry sits in a directory. */
  predicate WellFormed(fs: Tree)
  {
    (forall q :: q in fs ==> |q| >= 1) &&
    (forall q {:trigger Parent(q)} :: q in fs && |q| >= 2 ==> Parent(q) in fs && fs[Parent(q)].DirStat?)
  }

  predicate IsDir(fs: Tree, p: Path)
  {
    p in fs && fs[p].DirStat?
  }

  /** The names `fs.readdirSync(dir)` lists. */
  function Children(fs: Tree, dir: Path): (names: set<string>)
    ensures forall n :: n in names <==> Join(dir, n) in fs
  {
    var names := set q | q in fs && |q| == |dir| + 1 && q[..|dir|] == dir :: q[|dir|];
    assert forall n :: Join(dir, n) in fs ==> n in names by {
      forall n | Join(dir, n) in fs ensures n in names {
        var q := Join(dir, n);
        assert q[|dir|] == n;
      }
    }
    assert forall n :: n in names ==> Join(dir, n) in fs by {
      forall n | n in names ensures Join(dir, n) in fs {
        var q :| q in fs && |q| == |dir| + 1 && q[..|dir|] == dir && q[|dir|] == n;
        assert q == Join(dir, n);
      }
    }
    names
  }

  /** Every listed name is an entry of `dir`. */
  predicate Listed(fs: Tree, dir: Path, names: seq<string>)
  {
    forall n :: n in names ==> Join(dir, n) in fs
  }

  /** Every entry at or below `p`. */
  function Subtree(fs: Tree, p: Path): (s: set<Path>)
    ensures forall q :: q in s <==> q in fs && IsPrefix(p, q)
  {
    set q | q in fs && IsPrefix(p, q)
  }

  /** `fs` with everything at or below any of `roots` gone. */
  function RemoveSubtrees(fs: Tree, roots: set<Path>): (r: Tree)
    ensures forall q :: q in r <==> q in fs && forall t :: t in roots ==> !IsPrefix(t, q)
    ensures forall q :: q in r ==> r[q] == fs[q]
  {
    map q | q in fs && (forall t :: t in roots ==> !IsPrefix(t, q)) :: fs[q]
  }

  /** In a well-formed tree, every ancestor of an entry below the volume is a directory. */
  lemma {:induction false} AncestorsAreDirs(fs: Tree, q: Path, j: nat)
    requires WellFormed(fs) && q in fs && 1 <= j < |q|
    ensures IsDir(fs, q[..j])
    decreases |q| - j
  {
    if j == |q| - 1 {
      assert q[..j] == Parent(q);
    } else {
      AncestorsAreDirs(fs, q, j + 1);
      assert q[..j] == Parent(q[..j + 1]);
    }
  }

  /** Removing whole subtrees never orphans an entry. */
  lemma RemoveSubtreesWellFormed(fs: Tree, roots: set<Path>)
    requires WellFormed(fs)
    ensures WellFormed(RemoveSubtrees(fs, roots))
  {
    var r := RemoveSubtrees(fs, roots);
    forall q | q in r && |q| >= 2
      ensures Parent(q) in r && r[Parent(q)].DirStat?
    {
      assert q in fs && Parent(q) in fs && fs[Parent(q)].DirStat?;
      forall t | t in roots ensures !IsPrefix(t, Parent(q)) {
        PrefixOfParent(t, q);
      }
    }
  }

  /** What lies above a path's parent lies above the path. */
  lemma PrefixOfParent(t: Path, q: Path)
    requires |q| >= 1
    ensures IsPrefix(t, Parent(q)) ==> IsPrefix(t, q)
  {
    if |t| <= |Parent(q)| {
      assert q[..|t|] == Parent(q)[..|t|];
    }
  }

  /** Removing two families of subtrees one after the other removes their union. */
  lemma RemoveSubtreesTwice(fs: Tree, a: set<Path>, b: set<Path>)
    ensures RemoveSubtrees(RemoveSubtrees(fs, a), b) == RemoveSubtrees(fs, a + b)
  {
  }

  lemma InChildrenOfParent(fs: Tree, q: Path)
    requires q in fs && |q| >= 1
    ensures Basename(q) in Children(fs, Parent(q))
  {
    assert Join(Parent(q), Basename(q)) == q;
  }

  /** Removing a directory with no entries never orphans an entry. */
  lemma RemoveEmptyDirWellFormed(fs: Tree, p: Path)
    requires WellFormed(fs) && Children(fs, p) == {}
    ensures WellFormed(fs - {p})
  {
    forall q | q in fs && |q| >= 2 ensures Parent(q) != p {
      InChildrenOfParent(fs, q);
    }
  }

  /** A file has nothing below it, so removing its subtree removes the file alone. */
  lemma FileSubtree(fs: Tree, p: Path)
    requires WellFormed(fs) && p in fs && fs[p].FileStat?
    ensures RemoveSubtrees(fs, {p}) == fs - {p}
  {
    forall q | q in fs && q != p && IsPrefix(p, q) ensures false {
      AncestorsAreDirs(fs, q, |p|);
    }
  }

  // ---- The syscalls, as functions from the filesystem before to the result and the filesystem after.

  /** `fs.mkdirSync(p)`: EEXIST when anything is at `p` already. */
  function MkdirSys(fs: Tree, p: Path): (r: (Outcome<Errno>, Tree))
    ensures WellFormed(fs) ==> WellFormed(r.1)
    ensures r.0.Pass? <==> p !in fs && |p| >= 2 && IsDir(fs, Parent(p))
    ensures r.0 == Fail(EEXIST) <==> p in fs
    ensures r.1 == if r.0.Pass? then fs[p := DirStat] else fs
  {
    if p in fs then (Fail(EEXIST), fs)
    else if |p| < 2 || Parent(p) !in fs then (Fail(ENOENT), fs)
    else if fs[Parent(p)].FileStat? then (Fail(ENOTDIR), fs)
    else (Pass, fs[p := DirStat])
  }

  /** `fs.unlinkSync(p)`: removes a file. */
  function UnlinkSys(fs: Tree, p: Path): (r: (Outcome<Errno>, Tree))
    ensures WellFormed(fs) ==> WellFormed(r.1)
    ensures r.0.Pass? <==> p in fs && fs[p].FileStat?
    ensures r.1 == if r.0.Pass? then fs - {p} else fs
  {
    if p !in fs then (Fail(ENOENT), fs)
    else if fs[p].DirStat? then (Fail(EISDIR), fs)
    else (Pass, fs - {p})
  }

  /** `fs.rmdirSync(p)`: removes an empty directory. */
  function RmdirSys(fs: Tree, p: Path): (r: (Outcome<Errno>, Tree))
    ensures WellFormed(fs) ==> WellFormed(r.1)
    ensures r.0.Pass? <==> IsDir(fs, p) && Children(fs, p) == {}
    ensures r.1 == if r.0.Pass? then fs - {p} else fs
  {
    if p !in fs then (Fail(ENOENT), fs)
    else if fs[p].FileStat? then (Fail(ENOTDIR), fs)
    else if Children(fs, p) != {} then (Fail(ENOTEMPTY), fs)
    else
      assert WellFormed(fs) ==> WellFormed(fs - {p}) by {
        if WellFormed(fs) { RemoveEmptyDirWellFormed(fs, p); }
      }
      (Pass, fs - {p})
  }

  /** Whether `fs.readdirSync(p)` succeeds. */
  function ReaddirSys(fs: Tree, p: Path): (r: Outcome<Errno>)
    ensures r.Pass? <==> IsDir(fs, p)
  {
    if p !in fs then Fail(ENOENT)
    else if fs[p].FileStat? then Fail(ENOTDIR)
    else Pass
  }

  /** `fs.writeFileSync(p, data)`: creates or overwrites a file in an existing directory. */
  function WriteFileSys(fs: Tree, p: Path, data: Bytes): (r: (Outcome<Errno>, Tree))
    ensures WellFormed(fs) ==> WellFormed(r.1)
    ensures r.0.Pass? <==> |p| >= 2 && IsDir(fs, Parent(p)) && !IsDir(fs, p)
    ensures r.1 == if r.0.Pass? then fs[p := FileStat(data)] else fs
  {
    if |p| < 2 || Parent(p) !in fs then (Fail(ENOENT), fs)
    else if fs[Parent(p)].FileStat? then (Fail(ENOTDIR), fs)
    else if p in fs && fs[p].DirStat? then (Fail(EISDIR), fs)
    else (Pass, fs[p := FileStat(data)])
  }

  /** The disk the program runs against; its methods are the `fs.*Sync` calls it makes. */
  class Disk {
    var fs: Tree

    ghost predicate Valid()
      reads this
    {
      WellFormed(fs)
    }

    constructor (initial: Tree)
      requires WellFormed(initial)
      ensures Valid() && fs == initial
    {
      fs := initial;
    }

    method Mkdir(p: Path) returns (r: Outcome<Errno>)
      requires Valid()
      modifies this
      ensures Valid()
      ensures (r, fs) == MkdirSys(old(fs), p)
    {
      var res := MkdirSys(fs, p);
      r, fs := res.0, res.1;
    }

    method Unlink(p: Path) returns (r: Outcome<Errno>)
      requires Valid()
      modifies this
      ensures Valid()
      ensures (r, fs) == UnlinkSys(old(fs), p)
    {
      var res := UnlinkSys(fs, p);
      r, fs := res.0, res.1;
    }

    method Rmdir(p: Path) returns (r: Outcome<Errno>)
      requires Valid()
      modifies this
      ensures Valid()
      ensures (r, fs) == RmdirSys(old(fs), p)
    {
      var res := RmdirSys(fs, p);
      r, fs := res.0, res.1;
    }

    /**
     * `fs.readdirSync(p)`: on success the names of the entries of `p`, each
     * once, in an order the filesystem chooses.
     */
    method Readdir(p: Path) returns (r: Outcome<Errno>, names: seq<string>)
      ensures r == ReaddirSys(fs, p)
      ensures r.Pass? ==> IsListing(names, Children(fs, p))
      ensures r.Fail? ==> names == []
    {
      r := ReaddirSys(fs, p);
      names := [];
      if r.Pass? {
        var rest := Children(fs, p);
        while rest != {}
          invariant NoDup(names)
          invariant forall n :: n in names ==> n in Children(fs, p) && n !in rest
          invariant forall n :: n in Children(fs, p) ==> n in names || n in rest
          invariant rest <= Children(fs, p)
          decreases rest
        {
          var n :| n in rest;
          names := names + [n];
          rest := rest - {n};
        }
      }
    }
  }
}
