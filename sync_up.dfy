/**
 * `DriveSyncUp`: one pass of the push reconciliation, which makes one remote
 * folder mirror one local folder. The pass only reads the disk; every Drive
 * call it makes is asynchronous and is returned as a step.
 */
module DriveSyncUp {
  import opened Wrappers
  import opened Fingerprint
  import opened Paths
  import opened LocalFs
  import opened DriveItems
  import opened Matching

  /** The Drive calls a pass starts and does not wait for. */
  datatype PushStep =
    | SyncUp(localPath: Path, remoteId: Id)          // syncLocalFolderWithRemoteFolder
    | Update(localPath: Path, item: RemoteItem, buffer: Bytes) // updateSingle
    | Create(localPath: Path, request: InsertRequest) // createRemoteItem; a folder's pass follows its insert
    | Delete(item: RemoteItem)                       // deleteSingleItem

  /** What the pass reads of an entry: a file's content; a directory has none. */
  function Buffer(st: Stat): Bytes
  {
    if st.FileStat? then st.content else []
  }

  /**
   * What the pass schedules for the local entry `name`: with a remote item of
   * that title, a directory's pass or a file's upload unless the checksums
   * agree; without one, the insert `createRemoteItem` makes, if any.
   */
  function EntrySteps(fs: Tree, dir: Path, items: seq<RemoteItem>, name: string, remoteFolderId: Id, md5: Md5): seq<PushStep>
    requires Join(dir, name) in fs
  {
    var p := Join(dir, name);
    var isDirectory := fs[p].DirStat?;
    var buffer := Buffer(fs[p]);
    match FirstMatch(items, name)
    case Some(i) =>
      if isDirectory then [SyncUp(p, items[i].id)]
      else if ChecksumMatches(items[i], buffer, md5) then []
      else [Update(p, items[i], buffer)]
    case None =>
      match CreateRemoteItem(p, buffer, remoteFolderId, isDirectory)
      case None => []
      case Some(request) => [Create(p, request)]
  }

  function EntryPlan(fs: Tree, dir: Path, items: seq<RemoteItem>, names: seq<string>, remoteFolderId: Id, md5: Md5): seq<PushStep>
    requires Listed(fs, dir, names)
  {
    if names == [] then []
    else EntryPlan(fs, dir, items, names[..|names| - 1], remoteFolderId, md5) +
         EntrySteps(fs, dir, items, names[|names| - 1], remoteFolderId, md5)
  }

  /** One delete per index left in the marker list. */
  function DeletePlan(items: seq<RemoteItem>, idx: seq<nat>): seq<PushStep>
    requires forall j :: 0 <= j < |idx| ==> idx[j] < |items|
  {
    if idx == [] then []
    else DeletePlan(items, idx[..|idx| - 1]) + [Delete(items[idx[|idx| - 1]])]
  }

  /** Everything one pass from `dir` to the remote folder schedules, given the listing it read. */
  function PushPlan(fs: Tree, dir: Path, items: seq<RemoteItem>, names: seq<string>, remoteFolderId: Id, md5: Md5): (r: seq<PushStep>)
    requires Listed(fs, dir, names)
    ensures forall s :: s in r ==> if s.Delete? then s.item in items else ChildPath(s.localPath, dir)
  {
    EntryPlanShape(fs, dir, items, names, remoteFolderId, md5);
    DeletePlanShape(items, Unclaimed(items, names));
    EntryPlan(fs, dir, items, names, remoteFolderId, md5) + DeletePlan(items, Unclaimed(items, names))
  }

  // ---- The pass itself.

  /** The body of the `forEach` over the local listing, for one entry. */
  method ReconcileEntry(disk: Disk, localFolderPath: Path, remoteFolderId: Id, remoteFolderItems: seq<RemoteItem>,
                        localItemName: string, md5: Md5, notInLocal: seq<nat>)
    returns (remaining: seq<nat>, scheduled: seq<PushStep>)
    requires Join(localFolderPath, localItemName) in disk.fs
    ensures scheduled == EntrySteps(disk.fs, localFolderPath, remoteFolderItems, localItemName, remoteFolderId, md5)
    ensures remaining == match FirstMatch(remoteFolderItems, localItemName)
                         case Some(i) => Without(notInLocal, {i})
                         case None => notInLocal
  {
    var localItemFullPath := Join(localFolderPath, localItemName);
    var stat := disk.fs[localItemFullPath];
    var buffer: Bytes := [];
    if stat.FileStat? {
      buffer := stat.content;
    }
    remaining, scheduled := notInLocal, [];
    var remoteItemExists := false;
    var i := 0;
    while i < |remoteFolderItems|
      invariant 0 <= i <= |remoteFolderItems|
      invariant forall j :: 0 <= j < i ==> remoteFolderItems[j].title != localItemName
      invariant !remoteItemExists && remaining == notInLocal && scheduled == []
    {
      var remoteItem := remoteFolderItems[i];
      if remoteItem.title == localItemName {
        remoteItemExists := true;
        if stat.DirStat? {
          scheduled := [SyncUp(localItemFullPath, remoteItem.id)];
        } else {
          var fileHash := md5(buffer);
          if remoteItem.md5Checksum != Some(fileHash) {
            scheduled := [Update(localItemFullPath, remoteItem, buffer)];
          }
        }
        remaining := Without(remaining, {i});
        assert FirstMatch(remoteFolderItems, localItemName) == Some(i);
        break;
      }
      i := i + 1;
    }
    if !remoteItemExists {
      var request := CreateRemoteItem(localItemFullPath, buffer, remoteFolderId, stat.DirStat?);
      if request.Some? {
        scheduled := [Create(localItemFullPath, request.value)];
      }
    }
  }

  /**
   * `processRemoteItemList(localFolderPath, remoteFolderId, remoteFolderItems)`
   * of the push pass: it lists the local folder (stopping with the error `fs`
   * throws when it cannot) and returns the Drive calls it starts, an update,
   * a pass or an insert per local entry and a delete per remote item no local
   * entry paired with.
   */
  method ProcessRemoteItemList(disk: Disk, localFolderPath: Path, remoteFolderId: Id,
                               remoteFolderItems: seq<RemoteItem>, md5: Md5)
    returns (r: Outcome<Errno>, listing: seq<string>, steps: seq<PushStep>)
    ensures r == ReaddirSys(disk.fs, localFolderPath)
    ensures r.Fail? ==> listing == [] && steps == []
    ensures r.Pass? ==> IsListing(listing, Children(disk.fs, localFolderPath)) &&
                        Listed(disk.fs, localFolderPath, listing) &&
                        steps == PushPlan(disk.fs, localFolderPath, remoteFolderItems, listing, remoteFolderId, md5)
  {
    var notInLocal: seq<nat> := [];
    var i := 0;
    while i < |remoteFolderItems|
      invariant 0 <= i <= |remoteFolderItems| && notInLocal == Indices(i)
    {
      notInLocal := notInLocal + [i];
      i := i + 1;
    }

    steps := [];
    r, listing := disk.Readdir(localFolderPath);
    if r.Fail? {
      return;
    }
    assert Listed(disk.fs, localFolderPath, listing);
    WithoutNothing(notInLocal);
    assert listing[..0] == [];

    var k := 0;
    while k < |listing|
      invariant 0 <= k <= |listing|
      invariant notInLocal == Unclaimed(remoteFolderItems, listing[..k])
      invariant steps == EntryPlan(disk.fs, localFolderPath, remoteFolderItems, listing[..k], remoteFolderId, md5)
    {
      var scheduled;
      ghost var marked := notInLocal;
      notInLocal, scheduled := ReconcileEntry(disk, localFolderPath, remoteFolderId, remoteFolderItems, listing[k], md5, notInLocal);
      PassAdvances(disk.fs, localFolderPath, remoteFolderItems, listing, k, remoteFolderId, md5, marked, notInLocal);
      steps := steps + scheduled;
      k := k + 1;
    }
    assert listing[..k] == listing;

    var deletes := ScheduleDeletes(remoteFolderItems, notInLocal);
    steps := steps + deletes;
  }

  /** The `forEach` over the marker list: every remote item nobody paired with is deleted. */
  method ScheduleDeletes(remoteFolderItems: seq<RemoteItem>, notInLocal: seq<nat>) returns (steps: seq<PushStep>)
    requires forall j :: 0 <= j < |notInLocal| ==> notInLocal[j] < |remoteFolderItems|
    ensures steps == DeletePlan(remoteFolderItems, notInLocal)
  {
    steps := [];
    var m := 0;
    while m < |notInLocal|
      invariant 0 <= m <= |notInLocal|
      invariant steps == DeletePlan(remoteFolderItems, notInLocal[..m])
    {
      var remoteItem := remoteFolderItems[notInLocal[m]];
      steps := steps + [Delete(remoteItem)];
      assert notInLocal[..m + 1][..m] == notInLocal[..m];
      m := m + 1;
    }
    assert notInLocal[..m] == notInLocal;
  }

  /** One more entry handled: the marker list and the plan move on together. */
  lemma PassAdvances(fs: Tree, dir: Path, items: seq<RemoteItem>, names: seq<string>, k: nat, remoteFolderId: Id,
                     md5: Md5, marked: seq<nat>, remaining: seq<nat>)
    requires Listed(fs, dir, names) && k < |names|
    requires marked == Unclaimed(items, names[..k])
    requires remaining == match FirstMatch(items, names[k])
                          case Some(i) => Without(marked, {i})
                          case None => marked
    ensures remaining == Unclaimed(items, names[..k + 1])
    ensures EntryPlan(fs, dir, items, names[..k + 1], remoteFolderId, md5) ==
            EntryPlan(fs, dir, items, names[..k], remoteFolderId, md5) + EntrySteps(fs, dir, items, names[k], remoteFolderId, md5)
  {
    assert names[..k + 1][..k] == names[..k];
    match FirstMatch(items, names[k])
    case Some(j) =>
      WithoutTwice(Indices(|items|), Claimed(items, names[..k]), {j});
    case None =>
  }

  // ---- The remote folder the steps act on.

  /** The items of one remote folder, by id. */
  type Folder = map<Id, RemoteItem>

  /**
   * The item Drive files for an insert under a new id: the requested title
   * and type, and for an upload the checksum of its body. (The type Drive
   * infers for an upload is left as the empty string: only that it is not
   * the folder type matters here.)
   */
  function Inserted(request: InsertRequest, id: Id, md5: Md5): RemoteItem
  {
    RemoteItem(id, request.title,
               if request.mimeType.Some? then request.mimeType.value else "",
               if request.media.Some? then Some(md5(request.media.value)) else None)
  }

  /** The id the `k`-th step acts on; an insert is given the new id `Issued(base + k)`. */
  function StepKey(step: PushStep, k: nat, base: nat): Option<Id>
  {
    match step
    case SyncUp(_, _) => None
    case Update(_, item, _) => Some(item.id)
    case Create(_, _) => Some(Issued(base + k))
    case Delete(item) => Some(item.id)
  }

  /** What one step makes of the item under its id. */
  function PushEffect(o: Option<RemoteItem>, step: PushStep, key: Id, md5: Md5): (r: Option<RemoteItem>)
    ensures step.Create? ==> r.Some? && r.value.id == key
    ensures !step.Create? && r.Some? ==>
              o.Some? && r.value.id == o.value.id && r.value.title == o.value.title && r.value.mimeType == o.value.mimeType
  {
    match step
    case SyncUp(_, _) => o
    case Update(_, _, buffer) => if o.Some? then Some(o.value.(md5Checksum := Some(md5(buffer)))) else o
    case Create(_, request) => Some(Inserted(request, key, md5))
    case Delete(_) => None
  }

  function Look(files: Folder, x: Id): Option<RemoteItem>
  {
    if x in files then Some(files[x]) else None
  }

  function Put(files: Folder, x: Id, o: Option<RemoteItem>): (r: Folder)
    ensures forall y :: y != x ==> Look(r, y) == Look(files, y)
    ensures Look(r, x) == o
  {
    if o.Some? then files[x := o.value] else files - {x}
  }

  /** The steps carried out one after the other; `base` is above every serial Drive has issued. */
  function ApplyPush(files: Folder, steps: seq<PushStep>, base: nat, md5: Md5): Folder
    decreases |steps|
  {
    if steps == [] then files
    else
      var k := |steps| - 1;
      var before := ApplyPush(files, steps[..k], base, md5);
      match StepKey(steps[k], k, base)
      case None => before
      case Some(x) => Put(before, x, PushEffect(Look(before, x), steps[k], x, md5))
  }

  /** The item under `x`, starting as `o`, after the steps aimed at `x`. */
  function ItemAfter(o: Option<RemoteItem>, steps: seq<PushStep>, x: Id, base: nat, md5: Md5): Option<RemoteItem>
    decreases |steps|
  {
    if steps == [] then o
    else
      var k := |steps| - 1;
      var prev := ItemAfter(o, steps[..k], x, base, md5);
      if StepKey(steps[k], k, base) == Some(x) then PushEffect(prev, steps[k], x, md5) else prev
  }

  /** The steps act on each id independently. */
  lemma {:induction false} ApplyPushAt(files: Folder, steps: seq<PushStep>, base: nat, md5: Md5, x: Id)
    ensures Look(ApplyPush(files, steps, base, md5), x) == ItemAfter(Look(files, x), steps, x, base, md5)
    decreases |steps|
  {
    if steps != [] {
      ApplyPushAt(files, steps[..|steps| - 1], base, md5, x);
    }
  }

  /** An id Drive had issued before the pass. */
  predicate Old(x: Id, base: nat)
  {
    x.Issued? ==> x.serial < base
  }

  /** The item under an old id after the updates and deletes aimed at it; inserts never are. */
  function OldAfter(o: Option<RemoteItem>, steps: seq<PushStep>, x: Id, md5: Md5): Option<RemoteItem>
    decreases |steps|
  {
    if steps == [] then o
    else
      var s := steps[|steps| - 1];
      var prev := OldAfter(o, steps[..|steps| - 1], x, md5);
      if (s.Update? || s.Delete?) && s.item.id == x then PushEffect(prev, s, x, md5) else prev
  }

  lemma {:induction false} OldKey(o: Option<RemoteItem>, steps: seq<PushStep>, x: Id, base: nat, md5: Md5)
    requires Old(x, base)
    ensures ItemAfter(o, steps, x, base, md5) == OldAfter(o, steps, x, md5)
    decreases |steps|
  {
    if steps != [] {
      OldKey(o, steps[..|steps| - 1], x, base, md5);
    }
  }

  lemma {:induction false} OldAfterAppend(o: Option<RemoteItem>, a: seq<PushStep>, b: seq<PushStep>, x: Id, md5: Md5)
    ensures OldAfter(o, a + b, x, md5) == OldAfter(OldAfter(o, a, x, md5), b, x, md5)
    decreases |b|
  {
    if b == [] {
      assert a + b == a;
    } else {
      assert (a + b)[..|a + b| - 1] == a + b[..|b| - 1];
      OldAfterAppend(o, a, b[..|b| - 1], x, md5);
    }
  }

  /** Every update and delete among the steps is aimed at an old id. */
  predicate AimsAtOld(steps: seq<PushStep>, base: nat)
  {
    forall s :: s in steps && (s.Update? || s.Delete?) ==> Old(s.item.id, base)
  }

  /** The new id of the `k`-th step is touched by that step alone, and only when it is an insert. */
  lemma {:induction false} FreshKey(o: Option<RemoteItem>, steps: seq<PushStep>, k: nat, base: nat, md5: Md5)
    requires AimsAtOld(steps, base)
    ensures ItemAfter(o, steps, Issued(base + k), base, md5) ==
            if k < |steps| && steps[k].Create? then Some(Inserted(steps[k].request, Issued(base + k), md5)) else o
    decreases |steps|
  {
    if steps != [] {
      var init := steps[..|steps| - 1];
      assert forall s :: s in init ==> s in steps;
      FreshKey(o, init, k, base, md5);
      var last := steps[|steps| - 1];
      if last.Update? || last.Delete? {
        assert last in steps;
      }
    }
  }

  lemma {:induction false} OldAfterNone(steps: seq<PushStep>, x: Id, md5: Md5)
    ensures OldAfter(None, steps, x, md5) == None
    decreases |steps|
  {
    if steps != [] {
      OldAfterNone(steps[..|steps| - 1], x, md5);
    }
  }

  // ---- What the plan does to the remote folder.

  predicate DistinctIds(items: seq<RemoteItem>)
  {
    forall i, j :: 0 <= i < j < |items| ==> items[i].id != items[j].id
  }

  /** `files` holds exactly the listed items, under their own ids, all issued before `base`. */
  predicate ListingOf(items: seq<RemoteItem>, files: Folder, base: nat)
  {
    DistinctIds(items) &&
    (forall i :: 0 <= i < |items| ==> items[i].id in files && files[items[i].id] == items[i] && Old(items[i].id, base)) &&
    (forall x :: x in files ==> exists i :: 0 <= i < |items| && items[i].id == x)
  }

  /** Every entry step comes from the entry its path names. */
  lemma {:induction false} EntryPlanShape(fs: Tree, dir: Path, items: seq<RemoteItem>, names: seq<string>, rid: Id, md5: Md5)
    requires Listed(fs, dir, names)
    ensures var plan := EntryPlan(fs, dir, items, names, rid, md5);
            forall s :: s in plan ==>
              !s.Delete? && Basename(s.localPath) in names && s.localPath == Join(dir, Basename(s.localPath)) &&
              s in EntrySteps(fs, dir, items, Basename(s.localPath), rid, md5)
    ensures forall n, s :: n in names && s in EntrySteps(fs, dir, items, n, rid, md5) ==>
              s in EntryPlan(fs, dir, items, names, rid, md5)
    decreases |names|
  {
    if names != [] {
      var init := names[..|names| - 1];
      assert forall n :: n in init ==> n in names;
      assert forall n :: n in names ==> n in init || n == names[|names| - 1];
      EntryPlanShape(fs, dir, items, init, rid, md5);
      EntryStepsShape(fs, dir, items, names[|names| - 1], rid, md5);
      assert EntryPlan(fs, dir, items, names, rid, md5) ==
             EntryPlan(fs, dir, items, init, rid, md5) + EntrySteps(fs, dir, items, names[|names| - 1], rid, md5);
    }
  }

  /** An entry schedules at most one step, aimed from its own path. */
  lemma EntryStepsShape(fs: Tree, dir: Path, items: seq<RemoteItem>, n: string, rid: Id, md5: Md5)
    requires Join(dir, n) in fs
    ensures var steps := EntrySteps(fs, dir, items, n, rid, md5);
            |steps| <= 1 && forall s :: s in steps ==> !s.Delete? && s.localPath == Join(dir, n) && (s.Update? ==> s.item in items)
  {
  }

  /** No two steps other than deletes come from the same path. */
  predicate PathsDistinct(plan: seq<PushStep>)
  {
    forall a, b :: 0 <= a < b < |plan| ==>
      plan[a].Delete? || plan[b].Delete? || plan[a].localPath != plan[b].localPath
  }

  /** Appending at most one step from a path no earlier step comes from keeps the paths distinct. */
  lemma PathsDistinctAppend(front: seq<PushStep>, last: seq<PushStep>, p: Path)
    requires PathsDistinct(front) && |last| <= 1
    requires forall s :: s in front ==> s.Delete? || s.localPath != p
    requires forall s :: s in last ==> !s.Delete? && s.localPath == p
    ensures PathsDistinct(front + last)
  {
    var plan := front + last;
    forall a, b | 0 <= a < b < |plan|
      ensures plan[a].Delete? || plan[b].Delete? || plan[a].localPath != plan[b].localPath
    {
      assert plan[a] == front[a] && front[a] in front;
      if b < |front| {
        assert plan[b] == front[b];
      } else {
        assert plan[b] == last[0] && last[0] in last;
      }
    }
  }

  /** No two entry steps come from the same path. */
  lemma {:induction false} EntryPlanPathsDistinct(fs: Tree, dir: Path, items: seq<RemoteItem>, names: seq<string>, rid: Id, md5: Md5)
    requires Listed(fs, dir, names) && NoDup(names)
    ensures PathsDistinct(EntryPlan(fs, dir, items, names, rid, md5))
    decreases |names|
  {
    if names != [] {
      var init := names[..|names| - 1];
      var m := names[|names| - 1];
      assert forall n :: n in init ==> n in names;
      assert m !in init;
      EntryPlanPathsDistinct(fs, dir, items, init, rid, md5);
      EntryStepsShape(fs, dir, items, m, rid, md5);
      var front := EntryPlan(fs, dir, items, init, rid, md5);
      forall s | s in front ensures s.Delete? || s.localPath != Join(dir, m) {
        EntryPlanShape(fs, dir, items, init, rid, md5);
        assert Basename(Join(dir, m)) == m;
      }
      PathsDistinctAppend(front, EntrySteps(fs, dir, items, m, rid, md5), Join(dir, m));
    }
  }

  /** Of the entry steps, only those of the title of a claimed item act on its id. */
  lemma {:induction false} EntryPlanOld(fs: Tree, dir: Path, items: seq<RemoteItem>, names: seq<string>, rid: Id, md5: Md5,
                                        i: nat, o: Option<RemoteItem>)
    requires Listed(fs, dir, names) && NoDup(names) && DistinctIds(items) && i < |items|
    ensures OldAfter(o, EntryPlan(fs, dir, items, names, rid, md5), items[i].id, md5) ==
            if Claims(items, names, i) then OldAfter(o, EntrySteps(fs, dir, items, items[i].title, rid, md5), items[i].id, md5)
            else o
    decreases |names|
  {
    if names != [] {
      var init := names[..|names| - 1];
      var m := names[|names| - 1];
      var t := items[i].title;
      assert forall n :: n in init ==> n in names;
      assert t in names <==> t in init || t == m;
      assert m !in init;
      EntryPlanOld(fs, dir, items, init, rid, md5, i, o);
      var front := EntryPlan(fs, dir, items, init, rid, md5);
      OldAfterAppend(o, front, EntrySteps(fs, dir, items, m, rid, md5), items[i].id, md5);
      if !(m == t && FirstMatch(items, t) == Some(i)) {
        EntryStepsElsewhere(fs, dir, items, m, rid, md5, i, OldAfter(o, front, items[i].id, md5));
      }
    }
  }

  lemma EntryStepsElsewhere(fs: Tree, dir: Path, items: seq<RemoteItem>, n: string, rid: Id, md5: Md5,
                            i: nat, o: Option<RemoteItem>)
    requires Join(dir, n) in fs && DistinctIds(items) && i < |items| && FirstMatch(items, n) != Some(i)
    ensures OldAfter(o, EntrySteps(fs, dir, items, n, rid, md5), items[i].id, md5) == o
  {
    var steps := EntrySteps(fs, dir, items, n, rid, md5);
    assert steps == [] || steps[..0] == [];
  }

  /** The deletes remove exactly the items left in the marker list. */
  lemma {:induction false} DeletePlanOld(items: seq<RemoteItem>, idx: seq<nat>, i: nat, o: Option<RemoteItem>, md5: Md5)
    requires forall j :: 0 <= j < |idx| ==> idx[j] < |items|
    requires DistinctIds(items) && i < |items|
    ensures OldAfter(o, DeletePlan(items, idx), items[i].id, md5) == if i in idx then None else o
    decreases |idx|
  {
    if idx != [] {
      var init := idx[..|idx| - 1];
      assert forall j :: 0 <= j < |init| ==> init[j] == idx[j];
      assert i in idx <==> i in init || i == idx[|idx| - 1];
      DeletePlanOld(items, init, i, o, md5);
    }
  }

  lemma {:induction false} DeletePlanShape(items: seq<RemoteItem>, idx: seq<nat>)
    requires forall j :: 0 <= j < |idx| ==> idx[j] < |items|
    ensures forall s :: s in DeletePlan(items, idx) ==> s.Delete? && s.item in items
    decreases |idx|
  {
    if idx != [] {
      var init := idx[..|idx| - 1];
      assert forall j :: 0 <= j < |init| ==> init[j] == idx[j];
      DeletePlanShape(items, init);
    }
  }

  /** The remote folder once every step of the pass has run. */
  function Pushed(fs: Tree, dir: Path, items: seq<RemoteItem>, names: seq<string>, rid: Id, md5: Md5,
                  files: Folder, base: nat): Folder
    requires Listed(fs, dir, names)
  {
    ApplyPush(files, PushPlan(fs, dir, items, names, rid, md5), base, md5)
  }

  lemma PlanAimsAtOld(fs: Tree, dir: Path, items: seq<RemoteItem>, names: seq<string>, rid: Id, md5: Md5,
                      files: Folder, base: nat)
    requires Listed(fs, dir, names) && ListingOf(items, files, base)
    ensures AimsAtOld(PushPlan(fs, dir, items, names, rid, md5), base)
  {
    var idx := Unclaimed(items, names);
    EntryPlanShape(fs, dir, items, names, rid, md5);
    DeletePlanShape(items, idx);
    forall s | s in PushPlan(fs, dir, items, names, rid, md5) && (s.Update? || s.Delete?)
      ensures Old(s.item.id, base)
    {
      if s in EntryPlan(fs, dir, items, names, rid, md5) {
        EntryStepsShape(fs, dir, items, Basename(s.localPath), rid, md5);
      }
      var i :| 0 <= i < |items| && items[i] == s.item;
    }
  }

  /** A listed item keeps its place when claimed (its checksum refreshed by an upload) and is deleted otherwise. */
  lemma OldItemAfter(fs: Tree, dir: Path, items: seq<RemoteItem>, names: seq<string>, rid: Id, md5: Md5,
                     files: Folder, base: nat, i: nat)
    requires IsListing(names, Children(fs, dir)) && ListingOf(items, files, base) && i < |items|
    ensures Listed(fs, dir, names)
    ensures Look(Pushed(fs, dir, items, names, rid, md5, files, base), items[i].id) ==
            if Claims(items, names, i)
            then OldAfter(Some(items[i]), EntrySteps(fs, dir, items, items[i].title, rid, md5), items[i].id, md5)
            else None
  {
    var x := items[i].id;
    var idx := Unclaimed(items, names);
    var entry := EntryPlan(fs, dir, items, names, rid, md5);
    var dels := DeletePlan(items, idx);
    ApplyPushAt(files, entry + dels, base, md5, x);
    OldKey(Some(items[i]), entry + dels, x, base, md5);
    OldAfterAppend(Some(items[i]), entry, dels, x, md5);
    EntryPlanOld(fs, dir, items, names, rid, md5, i, Some(items[i]));
    DeletePlanOld(items, idx, i, OldAfter(Some(items[i]), entry, x, md5), md5);
    UnclaimedIffNotClaimed(items, names, i);
  }

  /** What a claimed item becomes: a file whose checksum differs gets the checksum of the upload. */
  lemma ClaimedEffect(fs: Tree, dir: Path, items: seq<RemoteItem>, rid: Id, md5: Md5, i: nat)
    requires i < |items| && Join(dir, items[i].title) in fs && FirstMatch(items, items[i].title) == Some(i)
    ensures var p := Join(dir, items[i].title);
            OldAfter(Some(items[i]), EntrySteps(fs, dir, items, items[i].title, rid, md5), items[i].id, md5) ==
            Some(if fs[p].FileStat? && !ChecksumMatches(items[i], fs[p].content, md5)
                 then items[i].(md5Checksum := Some(md5(fs[p].content))) else items[i])
  {
    var steps := EntrySteps(fs, dir, items, items[i].title, rid, md5);
    assert steps == [] || steps[..0] == [];
  }

  /** The new id of the `k`-th step holds an item exactly when that step is an insert. */
  lemma NewItemAfter(fs: Tree, dir: Path, items: seq<RemoteItem>, names: seq<string>, rid: Id, md5: Md5,
                     files: Folder, base: nat, k: nat)
    requires Listed(fs, dir, names) && ListingOf(items, files, base)
    ensures var plan := PushPlan(fs, dir, items, names, rid, md5);
            Look(Pushed(fs, dir, items, names, rid, md5, files, base), Issued(base + k)) ==
            if k < |plan| && plan[k].Create? then Some(Inserted(plan[k].request, Issued(base + k), md5)) else None
  {
    var plan := PushPlan(fs, dir, items, names, rid, md5);
    PlanAimsAtOld(fs, dir, items, names, rid, md5, files, base);
    ApplyPushAt(files, plan, base, md5, Issued(base + k));
    FreshKey(Look(files, Issued(base + k)), plan, k, base, md5);
    assert Issued(base + k) !in files;
  }

  /** An insert of the plan comes from a listed entry no remote item is titled after, and one it does not skip. */
  lemma CreateFacts(fs: Tree, dir: Path, items: seq<RemoteItem>, names: seq<string>, rid: Id, md5: Md5, k: nat)
    requires Listed(fs, dir, names)
    requires k < |PushPlan(fs, dir, items, names, rid, md5)| && PushPlan(fs, dir, items, names, rid, md5)[k].Create?
    ensures var s := PushPlan(fs, dir, items, names, rid, md5)[k];
            var n := Basename(s.localPath);
            n in names && s.localPath == Join(dir, n) && k < |EntryPlan(fs, dir, items, names, rid, md5)| &&
            FirstMatch(items, n).None? &&
            CreateRemoteItem(Join(dir, n), Buffer(fs[Join(dir, n)]), rid, fs[Join(dir, n)].DirStat?) == Some(s.request)
  {
    var entry := EntryPlan(fs, dir, items, names, rid, md5);
    var dels := DeletePlan(items, Unclaimed(items, names));
    var plan := entry + dels;
    DeletePlanShape(items, Unclaimed(items, names));
    EntryPlanShape(fs, dir, items, names, rid, md5);
    forall j | |entry| <= j < |plan| ensures plan[j].Delete? {
      assert plan[j] == dels[j - |entry|] && dels[j - |entry|] in dels;
    }
    var s := plan[k];
    assert s == entry[k] && s in entry;
    CreateStep(fs, dir, items, Basename(s.localPath), rid, md5, s);
  }

  /** An insert among an entry's steps comes from an unpaired entry and is the one `createRemoteItem` builds for it. */
  lemma CreateStep(fs: Tree, dir: Path, items: seq<RemoteItem>, n: string, rid: Id, md5: Md5, s: PushStep)
    requires Join(dir, n) in fs && s in EntrySteps(fs, dir, items, n, rid, md5) && s.Create?
    ensures s.localPath == Join(dir, n) && FirstMatch(items, n).None?
    ensures CreateRemoteItem(Join(dir, n), Buffer(fs[Join(dir, n)]), rid, fs[Join(dir, n)].DirStat?) == Some(s.request)
  {
  }

  /** Every id left in the folder is a claimed item's or a new insert's. */
  lemma KeysAfter(fs: Tree, dir: Path, items: seq<RemoteItem>, names: seq<string>, rid: Id, md5: Md5,
                  files: Folder, base: nat, x: Id)
    requires IsListing(names, Children(fs, dir)) && ListingOf(items, files, base)
    requires x in Pushed(fs, dir, items, names, rid, md5, files, base)
    ensures Old(x, base) ==> exists i :: 0 <= i < |items| && items[i].id == x && Claims(items, names, i)
    ensures var plan := PushPlan(fs, dir, items, names, rid, md5);
            !Old(x, base) ==> x.serial - base < |plan| && plan[x.serial - base].Create?
  {
    var plan := PushPlan(fs, dir, items, names, rid, md5);
    if i :| 0 <= i < |items| && items[i].id == x {
      OldItemAfter(fs, dir, items, names, rid, md5, files, base, i);
    } else if Old(x, base) {
      assert x !in files;
      ApplyPushAt(files, plan, base, md5, x);
      OldKey(None, plan, x, base, md5);
      OldAfterNone(plan, x, md5);
    } else {
      NewItemAfter(fs, dir, items, names, rid, md5, files, base, x.serial - base);
    }
  }

  // ---- The remote folder mirrors the local one.

  /** A local `.svn` directory no remote item is titled after: `createRemoteItem` skips it. */
  predicate Skipped(fs: Tree, dir: Path, items: seq<RemoteItem>, n: string)
    requires Join(dir, n) in fs
  {
    FirstMatch(items, n).None? && fs[Join(dir, n)].DirStat? && n == ".svn"
  }

  /** The local names the remote folder is to hold once the pass has run. */
  function Uploaded(fs: Tree, dir: Path, items: seq<RemoteItem>, names: seq<string>): set<string>
    requires Listed(fs, dir, names)
  {
    set n | n in names && !Skipped(fs, dir, items, n)
  }

  /** A claimed item stays, under its own id and title. */
  lemma OldTitle(fs: Tree, dir: Path, items: seq<RemoteItem>, names: seq<string>, rid: Id, md5: Md5,
                 files: Folder, base: nat, i: nat)
    requires IsListing(names, Children(fs, dir)) && ListingOf(items, files, base)
    requires i < |items| && Claims(items, names, i)
    ensures var after := Pushed(fs, dir, items, names, rid, md5, files, base);
            items[i].id in after && after[items[i].id].title == items[i].title
  {
    OldItemAfter(fs, dir, items, names, rid, md5, files, base, i);
    ClaimedEffect(fs, dir, items, rid, md5, i);
  }

  /** An insert of the plan files an item titled by its entry, which no listed item was titled after. */
  lemma NewTitle(fs: Tree, dir: Path, items: seq<RemoteItem>, names: seq<string>, rid: Id, md5: Md5,
                 files: Folder, base: nat, k: nat)
    requires Listed(fs, dir, names) && ListingOf(items, files, base)
    requires k < |PushPlan(fs, dir, items, names, rid, md5)| && PushPlan(fs, dir, items, names, rid, md5)[k].Create?
    ensures var after := Pushed(fs, dir, items, names, rid, md5, files, base);
            var n := Basename(PushPlan(fs, dir, items, names, rid, md5)[k].localPath);
            Issued(base + k) in after && after[Issued(base + k)].title == n &&
            n in names && FirstMatch(items, n).None? && !Skipped(fs, dir, items, n)
  {
    NewItemAfter(fs, dir, items, names, rid, md5, files, base, k);
    CreateFacts(fs, dir, items, names, rid, md5, k);
  }

  /** The title of whatever ends up under an id: a listed, not skipped, local name. */
  lemma TitleAfter(fs: Tree, dir: Path, items: seq<RemoteItem>, names: seq<string>, rid: Id, md5: Md5,
                   files: Folder, base: nat, x: Id)
    requires IsListing(names, Children(fs, dir)) && ListingOf(items, files, base)
    requires x in Pushed(fs, dir, items, names, rid, md5, files, base)
    ensures var after := Pushed(fs, dir, items, names, rid, md5, files, base);
            after[x].title in Uploaded(fs, dir, items, names)
  {
    KeysAfter(fs, dir, items, names, rid, md5, files, base, x);
    if Old(x, base) {
      var i :| 0 <= i < |items| && items[i].id == x && Claims(items, names, i);
      OldTitle(fs, dir, items, names, rid, md5, files, base, i);
    } else {
      var k := x.serial - base;
      assert x == Issued(base + k);
      NewTitle(fs, dir, items, names, rid, md5, files, base, k);
    }
  }

  /**
   * After the pass and its calls, the remote folder holds an item for every
   * local name (but an unpaired `.svn` directory) and nothing else.
   */
  lemma PushTitles(fs: Tree, dir: Path, items: seq<RemoteItem>, names: seq<string>, rid: Id, md5: Md5,
                   files: Folder, base: nat)
    requires IsListing(names, Children(fs, dir)) && ListingOf(items, files, base)
    ensures Listed(fs, dir, names)
    ensures var after := Pushed(fs, dir, items, names, rid, md5, files, base);
            (forall x :: x in after ==> after[x].title in Uploaded(fs, dir, items, names)) &&
            (forall n :: n in Uploaded(fs, dir, items, names) ==> exists x :: x in after && after[x].title == n)
  {
    var after := Pushed(fs, dir, items, names, rid, md5, files, base);
    forall x | x in after ensures after[x].title in Uploaded(fs, dir, items, names) {
      TitleAfter(fs, dir, items, names, rid, md5, files, base, x);
    }
    forall n | n in Uploaded(fs, dir, items, names) ensures exists x :: x in after && after[x].title == n {
      UploadedPresent(fs, dir, items, names, rid, md5, files, base, n);
    }
  }

  lemma UploadedPresent(fs: Tree, dir: Path, items: seq<RemoteItem>, names: seq<string>, rid: Id, md5: Md5,
                        files: Folder, base: nat, n: string)
    requires IsListing(names, Children(fs, dir)) && ListingOf(items, files, base)
    requires n in Uploaded(fs, dir, items, names)
    ensures var after := Pushed(fs, dir, items, names, rid, md5, files, base);
            exists x :: x in after && after[x].title == n
  {
    var after := Pushed(fs, dir, items, names, rid, md5, files, base);
    match FirstMatch(items, n)
    case Some(i) =>
      OldItemAfter(fs, dir, items, names, rid, md5, files, base, i);
      ClaimedEffect(fs, dir, items, rid, md5, i);
      assert items[i].id in after;
    case None =>
      var p := Join(dir, n);
      var request := CreateRemoteItem(p, Buffer(fs[p]), rid, fs[p].DirStat?).value;
      assert EntrySteps(fs, dir, items, n, rid, md5) == [Create(p, request)];
      EntryPlanShape(fs, dir, items, names, rid, md5);
      var plan := PushPlan(fs, dir, items, names, rid, md5);
      assert Create(p, request) in plan;
      var k :| 0 <= k < |plan| && plan[k] == Create(p, request);
      NewItemAfter(fs, dir, items, names, rid, md5, files, base, k);
      assert Issued(base + k) in after;
  }

  /**
   * No two items of the folder share a title once the pass has run, even
   * when the listing had duplicate titles: the later ones are deleted.
   */
  lemma PushDistinct(fs: Tree, dir: Path, items: seq<RemoteItem>, names: seq<string>, rid: Id, md5: Md5,
                     files: Folder, base: nat, x: Id, y: Id)
    requires IsListing(names, Children(fs, dir)) && ListingOf(items, files, base)
    requires x in Pushed(fs, dir, items, names, rid, md5, files, base)
    requires y in Pushed(fs, dir, items, names, rid, md5, files, base)
    requires x != y
    ensures var after := Pushed(fs, dir, items, names, rid, md5, files, base);
            after[x].title != after[y].title
  {
    KeysAfter(fs, dir, items, names, rid, md5, files, base, x);
    KeysAfter(fs, dir, items, names, rid, md5, files, base, y);
    if Old(x, base) {
      var i :| 0 <= i < |items| && items[i].id == x && Claims(items, names, i);
      DistinctFromOld(fs, dir, items, names, rid, md5, files, base, i, y);
    } else {
      if Old(y, base) {
        var j :| 0 <= j < |items| && items[j].id == y && Claims(items, names, j);
        DistinctFromOld(fs, dir, items, names, rid, md5, files, base, j, x);
      } else {
        NewNewDistinct(fs, dir, items, names, rid, md5, files, base, x.serial - base, y.serial - base);
      }
    }
  }

  lemma DistinctFromOld(fs: Tree, dir: Path, items: seq<RemoteItem>, names: seq<string>, rid: Id, md5: Md5,
                        files: Folder, base: nat, i: nat, y: Id)
    requires IsListing(names, Children(fs, dir)) && ListingOf(items, files, base)
    requires i < |items| && Claims(items, names, i)
    requires y in Pushed(fs, dir, items, names, rid, md5, files, base) && y != items[i].id
    ensures var after := Pushed(fs, dir, items, names, rid, md5, files, base);
            items[i].id in after && after[items[i].id].title != after[y].title
  {
    KeysAfter(fs, dir, items, names, rid, md5, files, base, y);
    if Old(y, base) {
      var j :| 0 <= j < |items| && items[j].id == y && Claims(items, names, j);
      assert items[j].id != items[i].id;
      DistinctOldOld(fs, dir, items, names, rid, md5, files, base, i, j);
    } else {
      var k := y.serial - base;
      assert y == Issued(base + k);
      DistinctOldNew(fs, dir, items, names, rid, md5, files, base, i, k);
    }
  }

  lemma DistinctOldOld(fs: Tree, dir: Path, items: seq<RemoteItem>, names: seq<string>, rid: Id, md5: Md5,
                       files: Folder, base: nat, i: nat, j: nat)
    requires IsListing(names, Children(fs, dir)) && ListingOf(items, files, base)
    requires i < |items| && Claims(items, names, i) && j < |items| && Claims(items, names, j) && i != j
    ensures var after := Pushed(fs, dir, items, names, rid, md5, files, base);
            items[i].id in after && items[j].id in after && after[items[i].id].title != after[items[j].id].title
  {
    OldTitle(fs, dir, items, names, rid, md5, files, base, i);
    OldTitle(fs, dir, items, names, rid, md5, files, base, j);
  }

  lemma DistinctOldNew(fs: Tree, dir: Path, items: seq<RemoteItem>, names: seq<string>, rid: Id, md5: Md5,
                       files: Folder, base: nat, i: nat, k: nat)
    requires IsListing(names, Children(fs, dir)) && ListingOf(items, files, base)
    requires i < |items| && Claims(items, names, i)
    requires k < |PushPlan(fs, dir, items, names, rid, md5)| && PushPlan(fs, dir, items, names, rid, md5)[k].Create?
    ensures var after := Pushed(fs, dir, items, names, rid, md5, files, base);
            items[i].id in after && Issued(base + k) in after &&
            after[items[i].id].title != after[Issued(base + k)].title
  {
    OldTitle(fs, dir, items, names, rid, md5, files, base, i);
    NewTitle(fs, dir, items, names, rid, md5, files, base, k);
  }

  lemma NewNewDistinct(fs: Tree, dir: Path, items: seq<RemoteItem>, names: seq<string>, rid: Id, md5: Md5,
                       files: Folder, base: nat, kx: nat, ky: nat)
    requires IsListing(names, Children(fs, dir)) && ListingOf(items, files, base)
    requires var plan := PushPlan(fs, dir, items, names, rid, md5);
             kx < |plan| && plan[kx].Create? && ky < |plan| && plan[ky].Create? && kx != ky
    ensures var after := Pushed(fs, dir, items, names, rid, md5, files, base);
            Issued(base + kx) in after && Issued(base + ky) in after &&
            after[Issued(base + kx)].title != after[Issued(base + ky)].title
  {
    var plan := PushPlan(fs, dir, items, names, rid, md5);
    var entry := EntryPlan(fs, dir, items, names, rid, md5);
    EntryPlanPathsDistinct(fs, dir, items, names, rid, md5);
    NewTitle(fs, dir, items, names, rid, md5, files, base, kx);
    NewTitle(fs, dir, items, names, rid, md5, files, base, ky);
    CreateFacts(fs, dir, items, names, rid, md5, kx);
    CreateFacts(fs, dir, items, names, rid, md5, ky);
    assert plan[kx] == entry[kx] && plan[ky] == entry[ky];
    if kx < ky {
      assert entry[kx].localPath != entry[ky].localPath;
    } else {
      assert entry[ky].localPath != entry[kx].localPath;
    }
  }

  // ---- Each remote item reflects its local entry.

  /** The remote item stands for a local entry of its title and, for a file, carries that file's checksum. */
  predicate Reflects(fs: Tree, dir: Path, item: RemoteItem, md5: Md5)
  {
    var p := Join(dir, item.title);
    p in fs && (fs[p].FileStat? ==> item.md5Checksum == Some(md5(fs[p].content)))
  }

  /** The item is a folder exactly when its local entry is a directory. */
  predicate KindReflects(fs: Tree, dir: Path, item: RemoteItem)
    requires Join(dir, item.title) in fs
  {
    IsFolder(item) <==> fs[Join(dir, item.title)].DirStat?
  }

  lemma ClaimedReflects(fs: Tree, dir: Path, items: seq<RemoteItem>, names: seq<string>, rid: Id, md5: Md5,
                        files: Folder, base: nat, i: nat)
    requires IsListing(names, Children(fs, dir)) && ListingOf(items, files, base)
    requires i < |items| && Claims(items, names, i)
    ensures var after := Pushed(fs, dir, items, names, rid, md5, files, base);
            items[i].id in after && Reflects(fs, dir, after[items[i].id], md5) &&
            (KindsAgree(fs, dir, items) ==> KindReflects(fs, dir, after[items[i].id]))
  {
    OldItemAfter(fs, dir, items, names, rid, md5, files, base, i);
    ClaimedEffect(fs, dir, items, rid, md5, i);
  }

  lemma CreatedReflects(fs: Tree, dir: Path, items: seq<RemoteItem>, names: seq<string>, rid: Id, md5: Md5,
                        files: Folder, base: nat, k: nat)
    requires Listed(fs, dir, names) && ListingOf(items, files, base)
    requires k < |PushPlan(fs, dir, items, names, rid, md5)| && PushPlan(fs, dir, items, names, rid, md5)[k].Create?
    ensures var after := Pushed(fs, dir, items, names, rid, md5, files, base);
            Issued(base + k) in after && Reflects(fs, dir, after[Issued(base + k)], md5) &&
            KindReflects(fs, dir, after[Issued(base + k)])
  {
    NewItemAfter(fs, dir, items, names, rid, md5, files, base, k);
    CreateFacts(fs, dir, items, names, rid, md5, k);
  }

  /**
   * After the pass and its calls, every remote item carries the checksum of
   * the local file of its title, and, when the kinds of paired entries
   * agreed beforehand, is a folder exactly when its entry is a directory.
   */
  lemma PushContents(fs: Tree, dir: Path, items: seq<RemoteItem>, names: seq<string>, rid: Id, md5: Md5,
                     files: Folder, base: nat, x: Id)
    requires IsListing(names, Children(fs, dir)) && ListingOf(items, files, base)
    requires x in Pushed(fs, dir, items, names, rid, md5, files, base)
    ensures var after := Pushed(fs, dir, items, names, rid, md5, files, base);
            Reflects(fs, dir, after[x], md5) && (KindsAgree(fs, dir, items) ==> KindReflects(fs, dir, after[x]))
  {
    KeysAfter(fs, dir, items, names, rid, md5, files, base, x);
    if Old(x, base) {
      var i :| 0 <= i < |items| && items[i].id == x && Claims(items, names, i);
      ClaimedReflects(fs, dir, items, names, rid, md5, files, base, i);
    } else {
      var k := x.serial - base;
      assert x == Issued(base + k);
      CreatedReflects(fs, dir, items, names, rid, md5, files, base, k);
    }
  }

  // ---- A folder already in step.

  lemma {:induction false} ApplySyncUps(files: Folder, steps: seq<PushStep>, base: nat, md5: Md5)
    requires forall s :: s in steps ==> s.SyncUp?
    ensures ApplyPush(files, steps, base, md5) == files
    decreases |steps|
  {
    if steps != [] {
      var init := steps[..|steps| - 1];
      assert forall s :: s in init ==> s in steps;
      assert steps[|steps| - 1] in steps;
      ApplySyncUps(files, init, base, md5);
    }
  }

  lemma {:induction false} SettledEntryPlan(fs: Tree, dir: Path, items: seq<RemoteItem>, names: seq<string>, rid: Id, md5: Md5)
    requires Listed(fs, dir, names)
    requires forall n :: n in names ==> match FirstMatch(items, n)
               case None => false
               case Some(i) => fs[Join(dir, n)].FileStat? ==> ChecksumMatches(items[i], fs[Join(dir, n)].content, md5)
    ensures forall s :: s in EntryPlan(fs, dir, items, names, rid, md5) ==> s.SyncUp?
    decreases |names|
  {
    if names != [] {
      var init := names[..|names| - 1];
      assert forall n :: n in init ==> n in names;
      SettledEntryPlan(fs, dir, items, init, rid, md5);
    }
  }

  /**
   * Idempotence: when the remote folder already mirrors the local one, a
   * pass uploads, inserts and deletes nothing, only descends into
   * sub-folders, and leaves the remote folder as it was.
   */
  lemma PushSettled(fs: Tree, dir: Path, items: seq<RemoteItem>, names: seq<string>, rid: Id, md5: Md5,
                    files: Folder, base: nat)
    requires IsListing(names, Children(fs, dir)) && DistinctTitles(items) && Mirrors(fs, dir, items, md5)
    ensures Listed(fs, dir, names)
    ensures forall s :: s in PushPlan(fs, dir, items, names, rid, md5) ==> s.SyncUp?
    ensures Pushed(fs, dir, items, names, rid, md5, files, base) == files
  {
    forall i | 0 <= i < |items| ensures Claims(items, names, i) {
      var t := items[i].title;
      assert t in Titles(items);
      assert FirstMatch(items, t) == Some(i);
    }
    AllClaimed(items, names);
    forall n | n in names ensures FirstMatch(items, n).Some? {
      assert n in Titles(items);
    }
    SettledEntryPlan(fs, dir, items, names, rid, md5);
    ApplySyncUps(files, PushPlan(fs, dir, items, names, rid, md5), base, md5);
  }
}
