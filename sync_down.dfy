/**
 * `DriveSyncDown`: one pass of the pull reconciliation, which makes a local
 * folder mirror one remote folder. Removals happen at once; downloads and
 * the passes for sub-folders are scheduled and returned as steps.
 */
module DriveSyncDown {
  import opened Wrappers
  import opened Fingerprint
  import opened Paths
  import opened LocalFs
  import opened LocalFolders
  import opened DriveItems
  import opened Matching

  /** The asynchronous work a pass starts and does not wait for. */
  datatype PullStep =
    | SyncDown(remoteId: Id, localPath: Path)       // syncRemoteFolderWithLocalFolder
    | Download(item: RemoteItem, localPath: Path)   // downloadSingleFile

  /**
   * What the pass schedules for the local entry `name`, stat'd in `fs`: a
   * local directory is synchronised with the first remote item of that title,
   * a local file is downloaded over unless the checksums agree, and an entry
   * no remote item is titled after schedules nothing (it is removed).
   */
  function EntrySteps(fs: Tree, dir: Path, items: seq<RemoteItem>, name: string, md5: Md5): (r: seq<PullStep>)
    requires Join(dir, name) in fs
    ensures |r| <= 1 && forall s :: s in r ==> s.localPath == Join(dir, name)
    ensures r != [] ==> FirstMatch(items, name).Some?
  {
    var p := Join(dir, name);
    match FirstMatch(items, name)
    case None => []
    case Some(i) =>
      if fs[p].DirStat? then [SyncDown(items[i].id, p)]
      else if ChecksumMatches(items[i], fs[p].content, md5) then []
      else [Download(items[i], p)]
  }

  function EntryPlan(fs: Tree, dir: Path, items: seq<RemoteItem>, names: seq<string>, md5: Md5): seq<PullStep>
    requires Listed(fs, dir, names)
  {
    if names == [] then []
    else EntryPlan(fs, dir, items, names[..|names| - 1], md5) + EntrySteps(fs, dir, items, names[|names| - 1], md5)
  }

  /** What the pass schedules for a remote item no local entry claimed. */
  function RemainingStep(dir: Path, item: RemoteItem): PullStep
  {
    var p := Join(dir, item.title);
    if IsFolder(item) then SyncDown(item.id, p) else Download(item, p)
  }

  function RemainingPlan(dir: Path, items: seq<RemoteItem>, idx: seq<nat>): seq<PullStep>
    requires forall j :: 0 <= j < |idx| ==> idx[j] < |items|
  {
    if idx == [] then []
    else
      RemainingPlan(dir, items, idx[..|idx| - 1]) + [RemainingStep(dir, items[idx[|idx| - 1]])]
  }

  /** Everything one pass over `dir` schedules, given the listing it read. */
  function PullPlan(fs: Tree, dir: Path, items: seq<RemoteItem>, names: seq<string>, md5: Md5): (r: seq<PullStep>)
    requires Listed(fs, dir, names)
    ensures TargetsChildren(r, dir)
  {
    assert forall j :: 0 <= j < |Unclaimed(items, names)| ==> Unclaimed(items, names)[j] in Unclaimed(items, names);
    EntryPlanTargets(fs, dir, items, names, md5);
    RemainingPlanTargets(dir, items, Unclaimed(items, names));
    EntryPlan(fs, dir, items, names, md5) + RemainingPlan(dir, items, Unclaimed(items, names))
  }

  /** The local entries no remote item is titled after. */
  function Removed(dir: Path, items: seq<RemoteItem>, names: seq<string>): set<Path>
  {
    set n | n in names && FirstMatch(items, n).None? :: Join(dir, n)
  }

  /** The filesystem once the pass has removed those entries and everything below them. */
  function Pruned(fs: Tree, dir: Path, items: seq<RemoteItem>, names: seq<string>): Tree
  {
    RemoveSubtrees(fs, Removed(dir, items, names))
  }

  // ---- The pass itself.

  /**
   * The body of the `forEach` over the local listing, for one entry: pair it
   * with the first remote item of the same title, schedule what that pairing
   * calls for and drop the item's index from the marker list; or remove the
   * entry when nothing pairs with it.
   */
  method ReconcileEntry(disk: Disk, localFolderPath: Path, remoteFolderItems: seq<RemoteItem>,
                        localItemName: string, md5: Md5, notInLocal: seq<nat>)
    returns (remaining: seq<nat>, scheduled: seq<PullStep>)
    requires disk.Valid() && Join(localFolderPath, localItemName) in disk.fs
    modifies disk
    ensures disk.Valid()
    ensures scheduled == EntrySteps(old(disk.fs), localFolderPath, remoteFolderItems, localItemName, md5)
    ensures match FirstMatch(remoteFolderItems, localItemName)
            case Some(i) => remaining == Without(notInLocal, {i}) && disk.fs == old(disk.fs)
            case None => remaining == notInLocal &&
                         disk.fs == RemoveSubtrees(old(disk.fs), {Join(localFolderPath, localItemName)})
  {
    var localItemFullPath := Join(localFolderPath, localItemName);
    var stat := disk.fs[localItemFullPath];
    remaining, scheduled := notInLocal, [];
    var remoteItemExists := false;
    var i := 0;
    while i < |remoteFolderItems|
      invariant 0 <= i <= |remoteFolderItems|
      invariant forall j :: 0 <= j < i ==> remoteFolderItems[j].title != localItemName
      invariant !remoteItemExists && remaining == notInLocal && scheduled == []
    {
      var remoteItem := remoteFolderItems[i];
      if remoteItem.title == localItemName {
        remoteItemExists := true;
        if stat.DirStat? {
          scheduled := [SyncDown(remoteItem.id, localItemFullPath)];
        } else {
          var fileHash := md5(stat.content);
          if remoteItem.md5Checksum != Some(fileHash) {
            scheduled := [Download(remoteItem, localItemFullPath)];
          }
        }
        remaining := Without(remaining, {i});
        assert FirstMatch(remoteFolderItems, localItemName) == Some(i);
        break;
      }
      i := i + 1;
    }
    if !remoteItemExists {
      if stat.DirStat? {
        RmdirSync(disk, localItemFullPath);
      } else {
        FileSubtree(disk.fs, localItemFullPath);
        var _ := disk.Unlink(localItemFullPath);
      }
    }
  }

  /**
   * `processRemoteItemList(localFolderPath, remoteFolderId, remoteFolderItems)`
   * of the pull pass. It first makes sure the local folder exists (and stops
   * with the error `fs` throws when it cannot), lists it, removes every
   * entry no remote item is titled after, and returns what it schedules: a
   * pass or a download per paired entry, and a pass or a download per remote
   * item nobody paired with, at `localFolderPath` joined with its title.
   */
  method ProcessRemoteItemList(disk: Disk, localFolderPath: Path, remoteFolderId: Id,
                               remoteFolderItems: seq<RemoteItem>, md5: Md5)
    returns (r: Outcome<Errno>, listing: seq<string>, steps: seq<PullStep>)
    requires disk.Valid()
    modifies disk
    ensures disk.Valid()
    ensures var made := EnsureFolder(old(disk.fs), localFolderPath);
            var fs1 := made.1;
            if made.0.Fail? then r == made.0 && listing == [] && steps == [] && disk.fs == fs1
            else
              r == ReaddirSys(fs1, localFolderPath) &&
              (r.Fail? ==> listing == [] && steps == [] && disk.fs == fs1) &&
              (r.Pass? ==> IsListing(listing, Children(fs1, localFolderPath)) &&
                           Listed(fs1, localFolderPath, listing) &&
                           steps == PullPlan(fs1, localFolderPath, remoteFolderItems, listing, md5) &&
                           disk.fs == Pruned(fs1, localFolderPath, remoteFolderItems, listing))
  {
    listing, steps := [], [];
    r := EnsureFolderExistsSync(disk, localFolderPath);
    if r.Fail? {
      return;
    }
    ghost var fs1 := disk.fs;

    var notInLocal: seq<nat> := [];
    var i := 0;
    while i < |remoteFolderItems|
      invariant 0 <= i <= |remoteFolderItems| && notInLocal == Indices(i)
    {
      notInLocal := notInLocal + [i];
      i := i + 1;
    }

    r, listing := disk.Readdir(localFolderPath);
    if r.Fail? {
      return;
    }
    assert Listed(fs1, localFolderPath, listing);
    var entrySteps;
    notInLocal, entrySteps := ReconcileListing(disk, localFolderPath, remoteFolderItems, listing, md5, notInLocal);
    steps := entrySteps;

    var remaining := ScheduleRemaining(localFolderPath, remoteFolderItems, notInLocal);
    steps := steps + remaining;
  }

  /** The `forEach` over the local listing. */
  method ReconcileListing(disk: Disk, localFolderPath: Path, remoteFolderItems: seq<RemoteItem>,
                          listing: seq<string>, md5: Md5, marked: seq<nat>)
    returns (notInLocal: seq<nat>, steps: seq<PullStep>)
    requires disk.Valid() && Listed(disk.fs, localFolderPath, listing) && NoDup(listing)
    requires marked == Indices(|remoteFolderItems|)
    modifies disk
    ensures disk.Valid()
    ensures notInLocal == Unclaimed(remoteFolderItems, listing)
    ensures steps == EntryPlan(old(disk.fs), localFolderPath, remoteFolderItems, listing, md5)
    ensures disk.fs == Pruned(old(disk.fs), localFolderPath, remoteFolderItems, listing)
  {
    ghost var fs1 := disk.fs;
    notInLocal, steps := marked, [];
    WithoutNothing(notInLocal);
    assert listing[..0] == [];

    var k := 0;
    while k < |listing|
      invariant 0 <= k <= |listing|
      invariant disk.Valid()
      invariant notInLocal == Unclaimed(remoteFolderItems, listing[..k])
      invariant steps == EntryPlan(fs1, localFolderPath, remoteFolderItems, listing[..k], md5)
      invariant disk.fs == Pruned(fs1, localFolderPath, remoteFolderItems, listing[..k])
    {
      var name := listing[k];
      EntryStillThere(fs1, localFolderPath, remoteFolderItems, listing, k);
      ghost var before := disk.fs;
      var scheduled;
      notInLocal, scheduled := ReconcileEntry(disk, localFolderPath, remoteFolderItems, name, md5, notInLocal);
      EntryStepsSameStat(before, fs1, localFolderPath, remoteFolderItems, name, md5);
      EntryPlanGrows(fs1, localFolderPath, remoteFolderItems, listing, k, md5);
      steps := steps + scheduled;
      PassAdvances(fs1, before, disk.fs, localFolderPath, remoteFolderItems, listing, k, notInLocal);
      k := k + 1;
    }
    assert listing[..k] == listing;
  }

  /** The `forEach` over the marker list: a pass for a folder, a download for anything else. */
  method ScheduleRemaining(localFolderPath: Path, remoteFolderItems: seq<RemoteItem>, notInLocal: seq<nat>)
    returns (steps: seq<PullStep>)
    requires forall j :: 0 <= j < |notInLocal| ==> notInLocal[j] < |remoteFolderItems|
    ensures steps == RemainingPlan(localFolderPath, remoteFolderItems, notInLocal)
  {
    steps := [];
    var m := 0;
    while m < |notInLocal|
      invariant 0 <= m <= |notInLocal|
      invariant steps == RemainingPlan(localFolderPath, remoteFolderItems, notInLocal[..m])
    {
      var remoteItem := remoteFolderItems[notInLocal[m]];
      var itemFullPath := Join(localFolderPath, remoteItem.title);
      if remoteItem.mimeType == FOLDER_MIME {
        steps := steps + [SyncDown(remoteItem.id, itemFullPath)];
      } else {
        steps := steps + [Download(remoteItem, itemFullPath)];
      }
      assert notInLocal[..m + 1][..m] == notInLocal[..m];
      m := m + 1;
    }
    assert notInLocal[..m] == notInLocal;
  }

  // ---- Bookkeeping lemmas for the pass.

  /** One more entry handled: the marker list and the filesystem move on together. */
  lemma PassAdvances(fs1: Tree, before: Tree, after: Tree, dir: Path, items: seq<RemoteItem>,
                     names: seq<string>, k: nat, remaining: seq<nat>)
    requires k < |names|
    requires before == Pruned(fs1, dir, items, names[..k])
    requires match FirstMatch(items, names[k])
             case Some(i) => remaining == Without(Unclaimed(items, names[..k]), {i}) && after == before
             case None => remaining == Unclaimed(items, names[..k]) &&
                          after == RemoveSubtrees(before, {Join(dir, names[k])})
    ensures remaining == Unclaimed(items, names[..k + 1])
    ensures after == Pruned(fs1, dir, items, names[..k + 1])
  {
    ClaimedGrows(items, names, k);
    RemovedGrows(dir, items, names, k);
    match FirstMatch(items, names[k])
    case Some(j) =>
      WithoutTwice(Indices(|items|), Claimed(items, names[..k]), {j});
    case None =>
      RemoveSubtreesTwice(fs1, Removed(dir, items, names[..k]), {Join(dir, names[k])});
  }

  /** What an entry schedules depends on nothing but its own stat. */
  lemma EntryStepsSameStat(fs: Tree, fs': Tree, dir: Path, items: seq<RemoteItem>, name: string, md5: Md5)
    requires Join(dir, name) in fs && Join(dir, name) in fs' && fs[Join(dir, name)] == fs'[Join(dir, name)]
    ensures EntrySteps(fs, dir, items, name, md5) == EntrySteps(fs', dir, items, name, md5)
  {
  }

  /** An entry the pass has not reached yet is still there, as it was stat'd. */
  lemma EntryStillThere(fs: Tree, dir: Path, items: seq<RemoteItem>, names: seq<string>, k: nat)
    requires Listed(fs, dir, names) && NoDup(names) && k < |names|
    ensures Join(dir, names[k]) in Pruned(fs, dir, items, names[..k])
    ensures Pruned(fs, dir, items, names[..k])[Join(dir, names[k])] == fs[Join(dir, names[k])]
  {
    forall t | t in Removed(dir, items, names[..k]) ensures !IsPrefix(t, Join(dir, names[k])) {
      var n :| n in names[..k] && t == Join(dir, n);
      ChildPrefix(dir, n, names[k]);
    }
  }

  lemma EntryPlanGrows(fs: Tree, dir: Path, items: seq<RemoteItem>, names: seq<string>, k: nat, md5: Md5)
    requires Listed(fs, dir, names) && k < |names|
    ensures EntryPlan(fs, dir, items, names[..k + 1], md5) ==
            EntryPlan(fs, dir, items, names[..k], md5) + EntrySteps(fs, dir, items, names[k], md5)
  {
    assert names[..k + 1][..k] == names[..k];
  }

  lemma ClaimedGrows(items: seq<RemoteItem>, names: seq<string>, k: nat)
    requires k < |names|
    ensures Claimed(items, names[..k + 1]) ==
            match FirstMatch(items, names[k])
            case Some(i) => Claimed(items, names[..k]) + {i}
            case None => Claimed(items, names[..k])
  {
    assert names[..k + 1][..k] == names[..k];
  }

  lemma RemovedGrows(dir: Path, items: seq<RemoteItem>, names: seq<string>, k: nat)
    requires k < |names|
    ensures Removed(dir, items, names[..k + 1]) ==
            if FirstMatch(items, names[k]).None? then Removed(dir, items, names[..k]) + {Join(dir, names[k])}
            else Removed(dir, items, names[..k])
  {
    assert names[..k + 1] == names[..k] + [names[k]];
  }

  // ---- Carrying the scheduled steps out.

  /**
   * One scheduled step once it has run: a download writes what Drive serves
   * for the item (`served`); a sub-pass begins by materialising its folder,
   * which is all of it that shows at this folder's level.
   */
  function ApplyStep(fs: Tree, step: PullStep, served: RemoteItem -> Bytes): (r: Tree)
    ensures WellFormed(fs) ==> WellFormed(r)
  {
    match step
    case Download(item, p) => WriteFileSys(fs, p, served(item)).1
    case SyncDown(_, p) => EnsureFolder(fs, p).1
  }

  /** The steps run one after the other, in the order they were scheduled. */
  function ApplyPull(fs: Tree, steps: seq<PullStep>, served: RemoteItem -> Bytes): Tree
    decreases |steps|
  {
    if steps == [] then fs
    else ApplyStep(ApplyPull(fs, steps[..|steps| - 1], served), steps[|steps| - 1], served)
  }

  /** The names of the entries the steps target. */
  function StepNames(steps: seq<PullStep>): set<string>
  {
    set s | s in steps :: Basename(s.localPath)
  }

  predicate TargetsChildren(steps: seq<PullStep>, dir: Path)
  {
    forall s :: s in steps ==> ChildPath(s.localPath, dir)
  }

  /** A step aimed inside a directory leaves an entry of that name there, and touches nothing else there. */
  lemma StepChildren(fs: Tree, dir: Path, step: PullStep, served: RemoteItem -> Bytes)
    requires WellFormed(fs) && IsDir(fs, dir) && ChildPath(step.localPath, dir)
    ensures var after := ApplyStep(fs, step, served);
            WellFormed(after) && IsDir(after, dir) &&
            Children(after, dir) == Children(fs, dir) + {Basename(step.localPath)}
  {
    var p := step.localPath;
    var n := Basename(p);
    ChildPathIsJoin(p, dir);
    match step
    case Download(item, _) =>
      var w := WriteFileSys(fs, p, served(item));
      if w.0.Pass? {
        ChildrenAfterSet(fs, dir, n, FileStat(served(item)));
      } else {
        assert p in fs;
      }
    case SyncDown(_, _) =>
      EnsureChildFolder(fs, dir, n);
      if p !in fs {
        ChildrenAfterSet(fs, dir, n, DirStat);
      }
  }

  /** Setting an entry inside a directory adds its name to the directory's children and leaves the directory. */
  lemma ChildrenAfterSet(fs: Tree, dir: Path, n: string, st: Stat)
    requires IsDir(fs, dir)
    ensures IsDir(fs[Join(dir, n) := st], dir)
    ensures Children(fs[Join(dir, n) := st], dir) == Children(fs, dir) + {n}
  {
    var after := fs[Join(dir, n) := st];
    assert Join(dir, n) != dir;
    forall m ensures m in Children(after, dir) <==> m in Children(fs, dir) + {n} {
      if m != n {
        assert Join(dir, m) != Join(dir, n) by {
          assert Join(dir, m)[|dir|] == m;
        }
      }
    }
  }

  lemma {:induction false} ApplyPullChildren(fs: Tree, dir: Path, steps: seq<PullStep>, served: RemoteItem -> Bytes)
    requires WellFormed(fs) && IsDir(fs, dir) && TargetsChildren(steps, dir)
    ensures var after := ApplyPull(fs, steps, served);
            WellFormed(after) && IsDir(after, dir) &&
            Children(after, dir) == Children(fs, dir) + StepNames(steps)
    decreases |steps|
  {
    if steps != [] {
      var init, last := steps[..|steps| - 1], steps[|steps| - 1];
      StepsSnoc(steps, dir);
      ApplyPullChildren(fs, dir, init, served);
      StepChildren(ApplyPull(fs, init, served), dir, last, served);
    }
  }

  /** Splitting off the last step: what the others target, and the names they all target. */
  lemma StepsSnoc(steps: seq<PullStep>, dir: Path)
    requires steps != [] && TargetsChildren(steps, dir)
    ensures TargetsChildren(steps[..|steps| - 1], dir) && ChildPath(steps[|steps| - 1].localPath, dir)
    ensures StepNames(steps) == StepNames(steps[..|steps| - 1]) + {Basename(steps[|steps| - 1].localPath)}
  {
    var init, last := steps[..|steps| - 1], steps[|steps| - 1];
    assert steps == init + [last];
    assert last in steps;
  }

  /** Entry steps target paired entries of the listing. */
  lemma {:induction false} EntryPlanTargets(fs: Tree, dir: Path, items: seq<RemoteItem>, names: seq<string>, md5: Md5)
    requires Listed(fs, dir, names)
    ensures TargetsChildren(EntryPlan(fs, dir, items, names, md5), dir)
    ensures forall n :: n in StepNames(EntryPlan(fs, dir, items, names, md5)) ==>
              n in names && FirstMatch(items, n).Some?
    decreases |names|
  {
    if names != [] {
      var init := names[..|names| - 1];
      assert forall n :: n in init ==> n in names;
      EntryPlanTargets(fs, dir, items, init, md5);
      var last := EntrySteps(fs, dir, items, names[|names| - 1], md5);
      assert EntryPlan(fs, dir, items, names, md5) == EntryPlan(fs, dir, items, init, md5) + last;
      forall s | s in last ensures ChildPath(s.localPath, dir) && Basename(s.localPath) == names[|names| - 1] {
      }
    }
  }

  /** Remaining steps target exactly the titles of the items nobody paired with. */
  lemma {:induction false} RemainingPlanTargets(dir: Path, items: seq<RemoteItem>, idx: seq<nat>)
    requires forall j :: 0 <= j < |idx| ==> idx[j] < |items|
    ensures TargetsChildren(RemainingPlan(dir, items, idx), dir)
    ensures StepNames(RemainingPlan(dir, items, idx)) == set j | 0 <= j < |idx| :: items[idx[j]].title
    decreases |idx|
  {
    if idx != [] {
      var init := idx[..|idx| - 1];
      RemainingPlanTargets(dir, items, init);
      var last := RemainingStep(dir, items[idx[|idx| - 1]]);
      assert RemainingPlan(dir, items, idx) == RemainingPlan(dir, items, init) + [last];
      assert forall j :: 0 <= j < |init| ==> init[j] == idx[j];
      var lhs := set j | 0 <= j < |idx| :: items[idx[j]].title;
      var rhs := (set j | 0 <= j < |init| :: items[init[j]].title) + {Basename(last.localPath)};
      forall t | t in lhs ensures t in rhs {
        var j :| 0 <= j < |idx| && items[idx[j]].title == t;
        if j < |init| {
          assert items[init[j]].title == t;
        }
      }
      forall t | t in rhs ensures t in lhs {
        if t != Basename(last.localPath) {
          var j :| 0 <= j < |init| && items[init[j]].title == t;
          assert items[idx[j]].title == t;
        }
      }
    }
  }

  /** After pruning, the folder keeps exactly its paired entries. */
  lemma PrunedChildren(fs: Tree, dir: Path, items: seq<RemoteItem>, names: seq<string>)
    requires WellFormed(fs) && IsDir(fs, dir) && IsListing(names, Children(fs, dir))
    ensures var pruned := Pruned(fs, dir, items, names);
            WellFormed(pruned) && IsDir(pruned, dir) &&
            Children(pruned, dir) == set n | n in names && FirstMatch(items, n).Some?
  {
    var roots := Removed(dir, items, names);
    RemoveSubtreesWellFormed(fs, roots);
    var pruned := Pruned(fs, dir, items, names);
    PrunedKeepsDir(fs, dir, items, names);
    PrunedNames(fs, dir, items, names);
    assert Children(pruned, dir) == set n | n in names && FirstMatch(items, n).Some?;
  }

  /** The names left in the folder after the removals are exactly the paired ones. */
  lemma PrunedNames(fs: Tree, dir: Path, items: seq<RemoteItem>, names: seq<string>)
    requires IsListing(names, Children(fs, dir))
    ensures forall n :: n in Children(Pruned(fs, dir, items, names), dir) <==> n in names && FirstMatch(items, n).Some?
  {
    forall n ensures n in Children(Pruned(fs, dir, items, names), dir) <==> n in names && FirstMatch(items, n).Some? {
      if n in names && FirstMatch(items, n).Some? {
        PrunedKeeps(fs, dir, items, names, n);
      }
      if n in Children(Pruned(fs, dir, items, names), dir) {
        PrunedOnly(fs, dir, items, names, n);
      }
    }
  }

  /** The folder itself survives the removals, which are all below it. */
  lemma PrunedKeepsDir(fs: Tree, dir: Path, items: seq<RemoteItem>, names: seq<string>)
    requires IsDir(fs, dir)
    ensures IsDir(Pruned(fs, dir, items, names), dir)
  {
    forall t | t in Removed(dir, items, names) ensures !IsPrefix(t, dir) {
      var m :| m in names && FirstMatch(items, m).None? && t == Join(dir, m);
    }
  }

  /** A paired entry survives the removals. */
  lemma PrunedKeeps(fs: Tree, dir: Path, items: seq<RemoteItem>, names: seq<string>, n: string)
    requires IsListing(names, Children(fs, dir)) && n in names && FirstMatch(items, n).Some?
    ensures n in Children(Pruned(fs, dir, items, names), dir)
  {
    assert n in Children(fs, dir);
    forall t | t in Removed(dir, items, names) ensures !IsPrefix(t, Join(dir, n)) {
      var m :| m in names && FirstMatch(items, m).None? && t == Join(dir, m);
      ChildPrefix(dir, m, n);
    }
  }

  /** What is left in the folder after the removals is a paired entry. */
  lemma PrunedOnly(fs: Tree, dir: Path, items: seq<RemoteItem>, names: seq<string>, n: string)
    requires IsListing(names, Children(fs, dir)) && n in Children(Pruned(fs, dir, items, names), dir)
    ensures n in names && FirstMatch(items, n).Some?
  {
    var q := Join(dir, n);
    assert q in fs && n in Children(fs, dir) && n in names;
    assert IsPrefix(q, q);
    assert q !in Removed(dir, items, names);
  }

  /**
   * Convergence of one pass: once the pass has run and everything it
   * scheduled has run, the folder holds one entry per remote title and no
   * other entry, whatever it held before.
   */
  lemma PullConverges(fs1: Tree, dir: Path, items: seq<RemoteItem>, names: seq<string>, md5: Md5, served: RemoteItem -> Bytes)
    requires WellFormed(fs1) && IsDir(fs1, dir) && IsListing(names, Children(fs1, dir))
    ensures Listed(fs1, dir, names)
    ensures var after := ApplyPull(Pruned(fs1, dir, items, names), PullPlan(fs1, dir, items, names, md5), served);
            WellFormed(after) && Children(after, dir) == Titles(items)
  {
    var pruned := Pruned(fs1, dir, items, names);
    PrunedChildren(fs1, dir, items, names);
    var idx := Unclaimed(items, names);
    var entry := EntryPlan(fs1, dir, items, names, md5);
    var rest := RemainingPlan(dir, items, idx);
    EntryPlanTargets(fs1, dir, items, names, md5);
    RemainingPlanTargets(dir, items, idx);
    var plan := PullPlan(fs1, dir, items, names, md5);
    assert plan == entry + rest;
    assert StepNames(plan) == StepNames(entry) + StepNames(rest);
    ApplyPullChildren(pruned, dir, plan, served);
    TitlesCovered(items, names);
  }

  /** Every remote title is either a paired local name or the title of an item nobody paired with. */
  lemma TitlesCovered(items: seq<RemoteItem>, names: seq<string>)
    ensures var idx := Unclaimed(items, names);
            Titles(items) ==
            (set n | n in names && FirstMatch(items, n).Some?) + (set j | 0 <= j < |idx| :: items[idx[j]].title)
  {
    var idx := Unclaimed(items, names);
    var kept := set n | n in names && FirstMatch(items, n).Some?;
    var rest := set j | 0 <= j < |idx| :: items[idx[j]].title;
    forall t | t in Titles(items) ensures t in kept || t in rest {
      if t !in names {
        var j := FirstMatch(items, t).value;
        UnclaimedTitle(items, names, j);
        var k :| 0 <= k < |idx| && idx[k] == j;
        assert items[idx[k]].title == t;
      }
    }
    forall t | t in rest ensures t in Titles(items) {
      var k :| 0 <= k < |idx| && items[idx[k]].title == t;
      assert idx[k] in idx;
    }
  }

  // ---- What a pass leaves at each entry.

  function Lookup(fs: Tree, p: Path): Option<Stat>
  {
    if p in fs then Some(fs[p]) else None
  }

  /** What one step makes of the entry it targets. */
  function Effect(o: Option<Stat>, step: PullStep, served: RemoteItem -> Bytes): Option<Stat>
  {
    match step
    case Download(item, _) => if o == Some(DirStat) then o else Some(FileStat(served(item)))
    case SyncDown(_, _) => if o.None? then Some(DirStat) else o
  }

  /** The entry at `p`, starting as `o`, after the steps aimed at it. */
  function EntryAfter(o: Option<Stat>, steps: seq<PullStep>, p: Path, served: RemoteItem -> Bytes): Option<Stat>
    decreases |steps|
  {
    if steps == [] then o
    else
      var prev := EntryAfter(o, steps[..|steps| - 1], p, served);
      if steps[|steps| - 1].localPath == p then Effect(prev, steps[|steps| - 1], served) else prev
  }

  lemma StepAt(fs: Tree, dir: Path, step: PullStep, served: RemoteItem -> Bytes, p: Path)
    requires WellFormed(fs) && IsDir(fs, dir) && ChildPath(step.localPath, dir) && ChildPath(p, dir)
    ensures Lookup(ApplyStep(fs, step, served), p) ==
            if step.localPath == p then Effect(Lookup(fs, p), step, served) else Lookup(fs, p)
  {
    ChildPathIsJoin(step.localPath, dir);
    match step
    case Download(item, _) =>
    case SyncDown(_, _) =>
      EnsureChildFolder(fs, dir, Basename(step.localPath));
  }

  /** Steps aimed inside a directory act on each entry there independently. */
  lemma {:induction false} ApplyPullAt(fs: Tree, dir: Path, steps: seq<PullStep>, served: RemoteItem -> Bytes, p: Path)
    requires WellFormed(fs) && IsDir(fs, dir) && TargetsChildren(steps, dir) && ChildPath(p, dir)
    ensures Lookup(ApplyPull(fs, steps, served), p) == EntryAfter(Lookup(fs, p), steps, p, served)
    decreases |steps|
  {
    if steps != [] {
      var init := steps[..|steps| - 1];
      assert forall s :: s in init ==> s in steps;
      ApplyPullAt(fs, dir, init, served, p);
      ApplyPullChildren(fs, dir, init, served);
      StepAt(ApplyPull(fs, init, served), dir, steps[|steps| - 1], served, p);
    }
  }

  lemma {:induction false} EntryAfterAppend(o: Option<Stat>, a: seq<PullStep>, b: seq<PullStep>, p: Path, served: RemoteItem -> Bytes)
    ensures EntryAfter(o, a + b, p, served) == EntryAfter(EntryAfter(o, a, p, served), b, p, served)
    decreases |b|
  {
    if b == [] {
      assert a + b == a;
    } else {
      assert (a + b)[..|a + b| - 1] == a + b[..|b| - 1];
      EntryAfterAppend(o, a, b[..|b| - 1], p, served);
    }
  }

  lemma {:induction false} EntryAfterUntouched(o: Option<Stat>, steps: seq<PullStep>, p: Path, served: RemoteItem -> Bytes)
    requires forall s :: s in steps ==> s.localPath != p
    ensures EntryAfter(o, steps, p, served) == o
    decreases |steps|
  {
    if steps != [] {
      assert forall s :: s in steps[..|steps| - 1] ==> s in steps;
      EntryAfterUntouched(o, steps[..|steps| - 1], p, served);
    }
  }

  /** Of the entry steps, only those of the entry's own name act on it. */
  lemma {:induction false} EntryPlanAt(fs: Tree, dir: Path, items: seq<RemoteItem>, names: seq<string>, md5: Md5,
                                       n: string, o: Option<Stat>, served: RemoteItem -> Bytes)
    requires Listed(fs, dir, names) && NoDup(names)
    ensures EntryAfter(o, EntryPlan(fs, dir, items, names, md5), Join(dir, n), served) ==
            if n in names then EntryAfter(o, EntrySteps(fs, dir, items, n, md5), Join(dir, n), served) else o
    decreases |names|
  {
    if names != [] {
      var init := names[..|names| - 1];
      var m := names[|names| - 1];
      assert forall x :: x in init ==> x in names;
      assert n in names <==> n in init || n == m;
      assert m !in init;
      EntryPlanAt(fs, dir, items, init, md5, n, o, served);
      EntryPlanTargets(fs, dir, items, init, md5);
      EntryAfterAppend(o, EntryPlan(fs, dir, items, init, md5), EntrySteps(fs, dir, items, m, md5), Join(dir, n), served);
      if m == n {
        forall s | s in EntryPlan(fs, dir, items, init, md5) ensures s.localPath != Join(dir, n) {
          assert Basename(s.localPath) in init;
        }
        EntryAfterUntouched(o, EntryPlan(fs, dir, items, init, md5), Join(dir, n), served);
      } else {
        ChildPrefix(dir, m, n);
        EntryAfterUntouched(EntryAfter(o, EntryPlan(fs, dir, items, init, md5), Join(dir, n), served),
                            EntrySteps(fs, dir, items, m, md5), Join(dir, n), served);
      }
    }
  }

  /** With distinct titles, of the remaining steps only the one for item `i` acts on its entry. */
  lemma {:induction false} RemainingPlanAt(dir: Path, items: seq<RemoteItem>, idx: seq<nat>, i: nat,
                                           o: Option<Stat>, served: RemoteItem -> Bytes)
    requires forall j :: 0 <= j < |idx| ==> idx[j] < |items|
    requires StrictlyIncreasing(idx) && DistinctTitles(items) && i < |items|
    ensures EntryAfter(o, RemainingPlan(dir, items, idx), Join(dir, items[i].title), served) ==
            if i in idx then Effect(o, RemainingStep(dir, items[i]), served) else o
    decreases |idx|
  {
    if idx != [] {
      var init := idx[..|idx| - 1];
      var last := idx[|idx| - 1];
      var plan := RemainingPlan(dir, items, idx);
      var step := RemainingStep(dir, items[last]);
      assert forall j :: 0 <= j < |init| ==> init[j] == idx[j];
      assert i in idx <==> i in init || i == last;
      assert plan[..|plan| - 1] == RemainingPlan(dir, items, init) && plan[|plan| - 1] == step;
      RemainingPlanAt(dir, items, init, i, o, served);
      if last == i {
        assert i !in init by {
          forall j | 0 <= j < |init| ensures init[j] != i {
            assert idx[j] < idx[|idx| - 1];
          }
        }
      } else {
        assert items[last].title != items[i].title;
        ChildPrefix(dir, items[last].title, items[i].title);
        assert step.localPath != Join(dir, items[i].title);
      }
    }
  }

  /**
   * What a remote item's entry holds once the pass and its steps have run:
   * a missing entry becomes a folder or the served file, a local directory
   * stays a directory, and a local file keeps its content only when its
   * checksum matches.
   */
  function Mirrored(local: Option<Stat>, item: RemoteItem, md5: Md5, served: RemoteItem -> Bytes): Option<Stat>
  {
    match local
    case None => if IsFolder(item) then Some(DirStat) else Some(FileStat(served(item)))
    case Some(DirStat) => Some(DirStat)
    case Some(FileStat(c)) => if ChecksumMatches(item, c, md5) then local else Some(FileStat(served(item)))
  }

  /** The whole plan, at one entry of the folder: the entry steps act first, then the remaining ones. */
  lemma PlanAt(fs1: Tree, dir: Path, items: seq<RemoteItem>, names: seq<string>, md5: Md5,
               served: RemoteItem -> Bytes, p: Path)
    requires WellFormed(fs1) && IsDir(fs1, dir) && IsListing(names, Children(fs1, dir)) && ChildPath(p, dir)
    ensures Listed(fs1, dir, names)
    ensures Lookup(ApplyPull(Pruned(fs1, dir, items, names), PullPlan(fs1, dir, items, names, md5), served), p) ==
            EntryAfter(EntryAfter(Lookup(Pruned(fs1, dir, items, names), p), EntryPlan(fs1, dir, items, names, md5), p, served),
                       RemainingPlan(dir, items, Unclaimed(items, names)), p, served)
  {
    var pruned := Pruned(fs1, dir, items, names);
    PrunedChildren(fs1, dir, items, names);
    var entry := EntryPlan(fs1, dir, items, names, md5);
    var rest := RemainingPlan(dir, items, Unclaimed(items, names));
    EntryPlanTargets(fs1, dir, items, names, md5);
    RemainingPlanTargets(dir, items, Unclaimed(items, names));
    assert PullPlan(fs1, dir, items, names, md5) == entry + rest;
    ApplyPullAt(pruned, dir, entry + rest, served, p);
    EntryAfterAppend(Lookup(pruned, p), entry, rest, p, served);
  }

  /** A paired entry's own steps make it what `Mirrored` says. */
  lemma EntryStepsMirror(fs1: Tree, dir: Path, items: seq<RemoteItem>, md5: Md5, served: RemoteItem -> Bytes, i: nat)
    requires i < |items| && FirstMatch(items, items[i].title) == Some(i) && Join(dir, items[i].title) in fs1
    ensures var p := Join(dir, items[i].title);
            EntryAfter(Lookup(fs1, p), EntrySteps(fs1, dir, items, items[i].title, md5), p, served) ==
            Mirrored(Lookup(fs1, p), items[i], md5, served)
  {
    var steps := EntrySteps(fs1, dir, items, items[i].title, md5);
    assert steps == [] || steps[..0] == [];
  }

  /** The entry steps, at the entry of item `i`: a paired entry becomes what `Mirrored` says, a new one stays absent. */
  lemma EntryStageAt(fs1: Tree, dir: Path, items: seq<RemoteItem>, names: seq<string>, md5: Md5,
                     served: RemoteItem -> Bytes, i: nat)
    requires WellFormed(fs1) && IsDir(fs1, dir) && IsListing(names, Children(fs1, dir))
    requires DistinctTitles(items) && i < |items|
    ensures Listed(fs1, dir, names)
    ensures var p := Join(dir, items[i].title);
            EntryAfter(Lookup(Pruned(fs1, dir, items, names), p), EntryPlan(fs1, dir, items, names, md5), p, served) ==
            if items[i].title in names then Mirrored(Lookup(fs1, p), items[i], md5, served) else None
  {
    var t := items[i].title;
    var p := Join(dir, t);
    var pruned := Pruned(fs1, dir, items, names);
    PrunedChildren(fs1, dir, items, names);
    EntryPlanAt(fs1, dir, items, names, md5, t, Lookup(pruned, p), served);
    assert FirstMatch(items, t) == Some(i);
    if t in names {
      assert t in Children(pruned, dir);
      assert Lookup(pruned, p) == Lookup(fs1, p);
      EntryStepsMirror(fs1, dir, items, md5, served, i);
    } else {
      assert p !in pruned;
    }
  }

  /** The remaining steps, at the entry of item `i`: only an unpaired item's own step acts there. */
  lemma RemainingStageAt(dir: Path, items: seq<RemoteItem>, names: seq<string>, i: nat,
                         o: Option<Stat>, served: RemoteItem -> Bytes)
    requires DistinctTitles(items) && i < |items|
    ensures EntryAfter(o, RemainingPlan(dir, items, Unclaimed(items, names)), Join(dir, items[i].title), served) ==
            if items[i].title in names then o else Effect(o, RemainingStep(dir, items[i]), served)
  {
    var t := items[i].title;
    var idx := Unclaimed(items, names);
    UnclaimedSpec(items, names);
    RemainingPlanAt(dir, items, idx, i, o, served);
    assert FirstMatch(items, t) == Some(i);
    if t in names {
      var k :| 0 <= k < |names| && names[k] == t;
      assert i !in idx;
    } else {
      UnclaimedTitle(items, names, i);
    }
  }

  /** With distinct remote titles, every remote item's entry ends up as `Mirrored` says. */
  lemma PullMirrors(fs1: Tree, dir: Path, items: seq<RemoteItem>, names: seq<string>, md5: Md5,
                    served: RemoteItem -> Bytes, i: nat)
    requires WellFormed(fs1) && IsDir(fs1, dir) && IsListing(names, Children(fs1, dir))
    requires DistinctTitles(items) && i < |items|
    ensures Listed(fs1, dir, names)
    ensures var p := Join(dir, items[i].title);
            Lookup(ApplyPull(Pruned(fs1, dir, items, names), PullPlan(fs1, dir, items, names, md5), served), p) ==
            Mirrored(Lookup(fs1, p), items[i], md5, served)
  {
    var p := Join(dir, items[i].title);
    var pruned := Pruned(fs1, dir, items, names);
    var entry := EntryPlan(fs1, dir, items, names, md5);
    PlanAt(fs1, dir, items, names, md5, served, p);
    EntryStageAt(fs1, dir, items, names, md5, served, i);
    RemainingStageAt(dir, items, names, i, EntryAfter(Lookup(pruned, p), entry, p, served), served);
    if items[i].title !in names {
      assert p !in fs1;
    }
  }

  /** Drive serves every file item with the content its `md5Checksum` describes. */
  predicate ServesChecksums(items: seq<RemoteItem>, md5: Md5, served: RemoteItem -> Bytes)
  {
    forall i :: 0 <= i < |items| && !IsFolder(items[i]) ==> ChecksumMatches(items[i], served(items[i]), md5)
  }

  /**
   * The pull pass, with everything it schedules carried out, makes the folder
   * mirror the remote listing, provided titles are distinct, Drive serves
   * what its checksums describe, and no entry has the other kind from its
   * remote namesake.
   */
  lemma PullReachesMirror(fs1: Tree, dir: Path, items: seq<RemoteItem>, names: seq<string>, md5: Md5,
                          served: RemoteItem -> Bytes)
    requires WellFormed(fs1) && IsDir(fs1, dir) && IsListing(names, Children(fs1, dir))
    requires DistinctTitles(items) && ServesChecksums(items, md5, served) && KindsAgree(fs1, dir, items)
    ensures Listed(fs1, dir, names)
    ensures Mirrors(ApplyPull(Pruned(fs1, dir, items, names), PullPlan(fs1, dir, items, names, md5), served), dir, items, md5)
  {
    PullConverges(fs1, dir, items, names, md5, served);
    var after := ApplyPull(Pruned(fs1, dir, items, names), PullPlan(fs1, dir, items, names, md5), served);
    forall i | 0 <= i < |items|
      ensures Join(dir, items[i].title) in after &&
              (after[Join(dir, items[i].title)].DirStat? <==> IsFolder(items[i])) &&
              (after[Join(dir, items[i].title)].FileStat? ==>
                 ChecksumMatches(items[i], after[Join(dir, items[i].title)].content, md5))
    {
      var p := Join(dir, items[i].title);
      PullMirrors(fs1, dir, items, names, md5, served, i);
      MirroredAgrees(Lookup(fs1, p), items[i], md5, served);
    }
  }

  /** An entry of the right kind, or none, fetched from a Drive that serves what it describes, ends up reflecting the item. */
  lemma MirroredAgrees(local: Option<Stat>, item: RemoteItem, md5: Md5, served: RemoteItem -> Bytes)
    requires local.Some? ==> (local.value.DirStat? <==> IsFolder(item))
    requires !IsFolder(item) ==> ChecksumMatches(item, served(item), md5)
    ensures var m := Mirrored(local, item, md5, served);
            m.Some? && (m.value.DirStat? <==> IsFolder(item)) &&
            (m.value.FileStat? ==> ChecksumMatches(item, m.value.content, md5))
  {
  }

  lemma {:induction false} SettledEntryPlan(fs: Tree, dir: Path, items: seq<RemoteItem>, names: seq<string>, md5: Md5)
    requires Listed(fs, dir, names)
    requires forall n :: n in names ==> match FirstMatch(items, n)
               case None => false
               case Some(i) => fs[Join(dir, n)].FileStat? ==> ChecksumMatches(items[i], fs[Join(dir, n)].content, md5)
    ensures forall s :: s in EntryPlan(fs, dir, items, names, md5) ==> s.SyncDown?
    decreases |names|
  {
    if names != [] {
      var init := names[..|names| - 1];
      assert forall n :: n in init ==> n in names;
      SettledEntryPlan(fs, dir, items, init, md5);
    }
  }

  /** When every local name has a remote match, the pass removes nothing. */
  lemma NothingRemoved(fs: Tree, dir: Path, items: seq<RemoteItem>, names: seq<string>)
    requires forall n :: n in names ==> FirstMatch(items, n).Some?
    ensures Pruned(fs, dir, items, names) == fs
  {
    assert Removed(dir, items, names) == {};
    assert RemoveSubtrees(fs, {}) == fs;
  }

  /** When the local names are exactly the remote titles, every name is paired and no item is left over. */
  lemma MirrorPairsAll(fs: Tree, dir: Path, items: seq<RemoteItem>, names: seq<string>)
    requires IsListing(names, Children(fs, dir)) && DistinctTitles(items) && Children(fs, dir) == Titles(items)
    ensures forall n :: n in names ==> FirstMatch(items, n).Some?
    ensures Unclaimed(items, names) == []
  {
    forall n | n in names ensures FirstMatch(items, n).Some? {
      assert n in Titles(items);
    }
    forall i | 0 <= i < |items| ensures Claims(items, names, i) {
      assert items[i].title in Titles(items);
    }
    AllClaimed(items, names);
  }

  /**
   * Idempotence: over a folder that already mirrors the listing, a pass
   * removes nothing, downloads nothing and only descends into sub-folders.
   */
  lemma PullSettled(fs1: Tree, dir: Path, items: seq<RemoteItem>, names: seq<string>, md5: Md5)
    requires WellFormed(fs1) && IsListing(names, Children(fs1, dir))
    requires DistinctTitles(items) && Mirrors(fs1, dir, items, md5)
    ensures Listed(fs1, dir, names)
    ensures Pruned(fs1, dir, items, names) == fs1
    ensures forall s :: s in PullPlan(fs1, dir, items, names, md5) ==> s.SyncDown?
  {
    MirrorPairsAll(fs1, dir, items, names);
    NothingRemoved(fs1, dir, items, names);
    SettledEntryPlan(fs1, dir, items, names, md5);
  }
}
