# gdrive sync core, modelled in Dafny

`gdrive.app.js` mirrors one folder tree onto another, in one direction per run.

- **Push** (`DriveSyncUp`) makes a Google Drive folder match a local folder.
- **Pull** (`DriveSyncDown`) makes a local folder match a Drive folder.

A pass over one folder pairs each local entry with the first remote item of
the same title. It keeps a marker list, `remoteItemsNotInLocal`, of the remote
indices nobody paired. Then it acts by direction:

- **Pull:** a paired entry is downloaded over when the MD5 checksums differ,
  or descended into when it is a directory. An unpaired local entry is
  removed. Every left-over remote item is downloaded, or descended into if it
  is a folder.
- **Push:** a paired file is uploaded when the checksums differ. An unpaired
  local entry is inserted (a directory called `.svn` excepted). Every
  left-over remote item is deleted.

Around that core sit:

- the paginated listing `retrieveAllItemsInFolder`, which restarts from
  scratch on an error;
- the walk `getOrCreateRemoteBaseHierarchy`, which finds or creates the folder
  a `/`-separated remote path names;
- the local helpers `ensureFolderExistsSync` (create a folder and its missing
  ancestors) and `rmdirSync` (remove a tree).

## How the model is built

**Modules.** There is one module per concern:

- `Wrappers` and `Fingerprint`: the shared types, with MD5 as a function parameter.
- `Paths`: a path is a sequence of segments, so `path.join` and the pull pass's `dir + '\\' + title` both append one segment.
- `LocalFs`: the disk as a map from paths to file or directory, with `fs.*Sync` calls as functions and as methods of the class `Disk`.
- `LocalFolders`: the two local folder helpers.
- `DriveItems`: remote items and `createRemoteItem`.
- `Matching`: first-title pairing and the marker list.
- `DriveSyncDown` and `DriveSyncUp`: the two passes.
- `Pagination`: the paginated listing.
- `RemoteHierarchy`: the remote path walk.

**The passes.** Each pass is a method with the source's loops: the marker-list loop, the `forEach` over the listing, the inner title loop with its `break`, and the `forEach` over the marker list. Each method is proved equal to a plan function, `PullPlan` or `PushPlan`.

- The plan is the ordered list of asynchronous calls the pass starts and never waits for.
- Apart from the plan, the pull method proves its synchronous removals on the disk (`Pruned`).
- The Drive calls in a plan are then carried out by a fold: `ApplyPull` over the disk, or `ApplyPush` over a map of remote items by id.

**Remote ids.** Drive ids are `Root` or `Issued(n)`. A push insert is given the next serials after the ones Drive had already issued: `Issued(base + k)` for the `k`-th step of the plan.

## Model

| member | source | states |
|---|---|---|
| `Paths.Join` | gdrive.app.js:297 | definition: `path.join(dir, name)` and `dir + '\\' + name` append exactly one segment, keeping `dir` as prefix |
| `Paths.Basename` | gdrive.app.js:145 | `path.basename`: the last segment, which joined back onto the rest gives the path again |
| `Paths.ChildPathIsJoin` | gdrive.app.js:342 | a path one segment below `dir` is `dir` joined with its base name, and its parent is `dir` |
| `Paths.ChildPrefix` | gdrive.app.js:297 | two children of one directory are nested (one a prefix of the other) exactly when their names are equal, so removing one child's tree spares every sibling |
| `LocalFs.Children` | gdrive.app.js:296 | the names `readdirSync` lists are exactly those whose joined path exists |
| `LocalFs.Subtree` | gdrive.app.js:272-280 | definition: the entries at or under a path are exactly those it prefixes |
| `LocalFs.RemoveSubtrees` | gdrive.app.js:329-335 | definition: the disk after removing trees keeps exactly the entries under none of the roots, unchanged |
| `LocalFs.AncestorsAreDirs` | gdrive.app.js:255-270 | in a well-formed disk every proper ancestor of an entry (below the volume) is a directory |
| `LocalFs.RemoveSubtreesWellFormed` | gdrive.app.js:329-335 | removing whole trees keeps every entry's parent directory in place |
| `LocalFs.RemoveSubtreesTwice` | gdrive.app.js:296-336 | removing trees one entry after another equals removing them all at once |
| `LocalFs.InChildrenOfParent` | gdrive.app.js:296 | every entry is listed by its parent under its base name |
| `LocalFs.RemoveEmptyDirWellFormed` | gdrive.app.js:276 | removing an empty directory keeps the disk well formed |
| `LocalFs.FileSubtree` | gdrive.app.js:334 | unlinking a file removes exactly that entry |
| `LocalFs.MkdirSys` | gdrive.app.js:258 | `mkdirSync` succeeds exactly when nothing is at the path and its parent is a directory; it fails with EEXIST exactly when something is there; only success adds a directory |
| `LocalFs.UnlinkSys` | gdrive.app.js:334 | `unlinkSync` succeeds exactly on a file and then removes just it |
| `LocalFs.RmdirSys` | gdrive.app.js:276 | `rmdirSync` succeeds exactly on an empty directory and then removes just it |
| `LocalFs.ReaddirSys` | gdrive.app.js:296 | `readdirSync` succeeds exactly on a directory |
| `LocalFs.WriteFileSys` | gdrive.app.js:209 | `writeFileSync` succeeds exactly when the parent is a directory and the path is not one, and then stores the data there |
| `LocalFs.Disk.constructor` | gdrive.app.js:296 | a disk starts as the given well-formed tree |
| `LocalFs.Disk.Mkdir` | gdrive.app.js:258 | the disk call does to the disk what `MkdirSys` says |
| `LocalFs.Disk.Unlink` | gdrive.app.js:279 | the disk call does to the disk what `UnlinkSys` says |
| `LocalFs.Disk.Rmdir` | gdrive.app.js:276 | the disk call does to the disk what `RmdirSys` says |
| `LocalFs.Disk.Readdir` | gdrive.app.js:296 | on success the names list the directory's entries, each once; on failure there are none |
| `LocalFolders.MkdirPrefixes` | gdrive.app.js:256-269 | the prefix loop never ends with EEXIST (it is swallowed) and keeps the disk well formed |
| `LocalFolders.MkdirPrefixesExtends` | gdrive.app.js:255-270 | the loop only adds: existing entries stay, and new ones are directories at prefixes it visited |
| `LocalFolders.MkdirPrefixesReaches` | gdrive.app.js:266-269 | a loop that gets through leaves every visited prefix in place |
| `LocalFolders.MkdirPrefixesIdempotent` | gdrive.app.js:255-270 | running the prefix loop twice has the effect of running it once |
| `LocalFolders.EnsureFolderIdempotent` | gdrive.app.js:255-270 | `ensureFolderExistsSync` twice equals once, outcome and disk alike |
| `LocalFolders.EnsureFolder` | gdrive.app.js:255-270 | reference definition of `ensureFolderExistsSync`: `mkdirSync` on the prefixes of two or more segments, shortest first; it keeps the disk well formed and never fails with EEXIST, which the inner `mkdirSync` swallows |
| `LocalFolders.MkdirPrefixesSucceeds` | gdrive.app.js:256-269 | the loop succeeds exactly when no proper prefix it visits is a file (a file at the path itself still passes, since its EEXIST is swallowed; the pass then fails at `readdirSync`) |
| `LocalFolders.EnsureFolderSucceeds` | gdrive.app.js:255-270 | `ensureFolderExistsSync` succeeds exactly when the volume is a directory and no proper prefix is a file (a file at the path itself still passes; the pass then fails at `readdirSync`); then the path exists and all its proper prefixes are directories |
| `LocalFolders.EnsureFolderSparesVolume` | gdrive.app.js:266 | the one-segment volume prefix is never created (the loop starts at `i = 2`) |
| `LocalFolders.EnsureChildFolder` | gdrive.app.js:290 | inside an existing directory, materialising a child creates that one directory if absent and changes nothing otherwise |
| `LocalFolders.RmdirSync` | gdrive.app.js:272-280 | after `rmdirSync(p)` nothing at or below `p` is left and every other entry is unchanged |
| `LocalFolders.ChildSurvives` | gdrive.app.js:275 | removing the earlier children's trees leaves the next child in place |
| `LocalFolders.SubtreeShrinks` | gdrive.app.js:275 | a child's tree is strictly smaller than its parent's, so the recursion ends |
| `LocalFolders.RemoveOneMore` | gdrive.app.js:275 | removing one more child's tree extends the removal done so far |
| `LocalFolders.NoChildrenLeft` | gdrive.app.js:275-276 | once every listed child's tree is gone the directory is empty, so `fs.rmdirSync` succeeds |
| `LocalFolders.DeepEntryUnderChild` | gdrive.app.js:275 | every entry strictly below a directory lies under one of its listed children |
| `LocalFolders.ChildRootUnderParent` | gdrive.app.js:275 | whatever lies under a child lies under the parent |
| `LocalFolders.WholeTreeGone` | gdrive.app.js:274-277 | removing every child's tree and then the directory removes exactly the directory's tree |
| `LocalFolders.EnsureFolderExistsSync` | gdrive.app.js:255-270 | the method's outcome and the disk it leaves are those of `EnsureFolder` |
| `DriveItems.Titles` | gdrive.app.js:304 | definition: a title is in the set exactly when some listed item has it |
| `DriveItems.ChecksumMatches` | gdrive.app.js:316 | definition of `remoteItem.md5Checksum === fileHash` (also line 405); an item without a checksum (a folder) never matches |
| `DriveItems.CreateRemoteItem` | gdrive.app.js:144-161 | no insert exactly for a directory named `.svn` (a file `.svn` is inserted); otherwise the title is the base name and the parent the given folder; the folder type exactly for a directory, and a media body (the buffer) exactly for a file |
| `Matching.FirstMatchFrom` | gdrive.app.js:301-326 | the inner loop from an index stops at the lowest later index with the title, or finds none |
| `Matching.FirstMatch` | gdrive.app.js:301-326 | a local name is paired with the lowest index of its title, or with nothing when no item has it |
| `Matching.Claimed` | gdrive.app.js:296-336 | the indices claimed by the local names lie within the listing |
| `Matching.ClaimedMeans` | gdrive.app.js:296-336 | an index is claimed exactly when it is the first match of some listed name |
| `Matching.Indices` | gdrive.app.js:292-294 | definition: the initial marker list is `0, 1, ..., n - 1` |
| `Matching.Without` | gdrive.app.js:324 | `filter(value != i)` keeps exactly the values not removed, and never grows |
| `Matching.WithoutNothing` | gdrive.app.js:324 | filtering nothing out leaves the list as it was |
| `Matching.WithoutTwice` | gdrive.app.js:324 | two filters in a row equal one filter by both sets |
| `Matching.WithoutAll` | gdrive.app.js:324 | filtering out every element leaves the empty list |
| `Matching.WithoutKeepsOrder` | gdrive.app.js:324 | filtering keeps an ascending list ascending |
| `Matching.Unclaimed` | gdrive.app.js:292-336 | the marker list after the local loop holds only indices of the listing |
| `Matching.UnclaimedSpec` | gdrive.app.js:292-336 | the marker list after the local loop is ascending and holds exactly the indices that are no local name's first match |
| `Matching.LaterDuplicateUnclaimed` | gdrive.app.js:301-325 | of two items with one title the later one is never paired, whatever the local names |
| `Matching.UnclaimedTitle` | gdrive.app.js:301-325 | an item whose title no local entry has stays in the marker list |
| `Matching.UnclaimedIffNotClaimed` | gdrive.app.js:292-336 | an index stays in the marker list exactly when its item is not the first of a listed title |
| `Matching.AllClaimed` | gdrive.app.js:292-336 | when every item is paired the marker list ends empty |
| `DriveSyncDown.ReconcileEntry` | gdrive.app.js:297-335 | one entry of the pull loop: it schedules that entry's plan steps; a paired entry drops its first match from the marker list and leaves the disk alone; an unpaired one leaves the marker list alone and its whole tree is removed |
| `DriveSyncDown.EntrySteps` | gdrive.app.js:307-335 | definition of what one local entry schedules: a sub-pass for a directory, a download for a file whose checksum differs, nothing when unpaired; at most one step, aimed at the entry's own path, and only when the entry is paired |
| `DriveSyncDown.PullPlan` | gdrive.app.js:296-348 | definition of everything one pull pass schedules: the entries' steps in listing order, then one per left-over index; every step is aimed at an entry directly inside the folder |
| `DriveSyncDown.ProcessRemoteItemList` | gdrive.app.js:288-349 | the pull pass: `ensureFolderExistsSync` first, stopping if it throws; then a failed listing stops; otherwise the listing names each entry once, the steps are `PullPlan`, and the disk is `Pruned` (unpaired entries' trees removed) |
| `DriveSyncDown.ReconcileListing` | gdrive.app.js:296-336 | the `forEach` over the listing leaves the marker list `Unclaimed`, schedules `EntryPlan`, and leaves the disk `Pruned` |
| `DriveSyncDown.ScheduleRemaining` | gdrive.app.js:339-348 | the `forEach` over the marker list schedules one download or sub-pass per left-over index, in order |
| `DriveSyncDown.PassAdvances` | gdrive.app.js:296-336 | one more entry handled moves the marker list and the disk on to the longer listing prefix |
| `DriveSyncDown.EntryStillThere` | gdrive.app.js:296-298 | an entry, listed once, is still on disk unchanged when its turn comes |
| `DriveSyncDown.EntryPlanGrows` | gdrive.app.js:296-336 | the plan for a longer listing prefix extends the shorter one by that entry's steps |
| `DriveSyncDown.ClaimedGrows` | gdrive.app.js:301-325 | each listed name adds its first match, if any, to the claimed set |
| `DriveSyncDown.RemovedGrows` | gdrive.app.js:329-335 | each unpaired listed name adds its path to the removed trees |
| `DriveSyncDown.StepChildren` | gdrive.app.js:209 | a download or sub-pass aimed inside a directory leaves an entry of that name there and no other change among its children |
| `DriveSyncDown.ApplyPullChildren` | gdrive.app.js:339-348 | carrying out steps aimed inside a directory adds exactly their names to its children |
| `DriveSyncDown.EntryPlanTargets` | gdrive.app.js:307-320 | the entry steps aim at the directory's children, and only at listed names that are paired |
| `DriveSyncDown.RemainingPlanTargets` | gdrive.app.js:339-348 | the remaining steps aim at the children named by the left-over items' titles |
| `DriveSyncDown.PrunedChildren` | gdrive.app.js:329-335 | after the removals the folder holds exactly the listed names that are paired |
| `DriveSyncDown.PrunedNames` | gdrive.app.js:329-335 | a name is left in the folder after the removals exactly when it is listed and paired |
| `DriveSyncDown.PullConverges` | gdrive.app.js:288-349 | once the pass and every step it scheduled have run, the folder's entries are exactly the remote titles; with duplicate titles of different kinds the program itself ends with an uncaught exception instead (see Left out) |
| `DriveSyncDown.TitlesCovered` | gdrive.app.js:292-348 | every remote title is a paired local name or the title of a left-over item |
| `DriveSyncDown.StepAt` | gdrive.app.js:209 | a step changes only its own entry, in the way its effect says |
| `DriveSyncDown.ApplyStep` | gdrive.app.js:196-211 | definition of a step once run (a sub-pass as begun at lines 282-290): a download is `writeFileSync` of what Drive serves, a sub-pass begins with `ensureFolderExistsSync`; either keeps the disk well formed |
| `DriveSyncDown.ApplyPullAt` | gdrive.app.js:339-348 | the steps act on each entry independently |
| `DriveSyncDown.EntryAfterAppend` | gdrive.app.js:296-348 | an entry's fate under two step lists in a row is its fate under the first then the second |
| `DriveSyncDown.EntryAfterUntouched` | gdrive.app.js:296-348 | steps aimed elsewhere leave an entry as it was |
| `DriveSyncDown.EntryPlanAt` | gdrive.app.js:296-336 | at one entry, the entry plan is just that name's own steps |
| `DriveSyncDown.RemainingPlanAt` | gdrive.app.js:339-348 | with distinct titles, at one item's entry the remaining plan is that item's step if it is left over, and nothing otherwise |
| `DriveSyncDown.EntryStageAt` | gdrive.app.js:296-336 | with distinct titles, after the removals and the entry steps, an item's entry is as `Mirrored` says when its title is listed, and absent otherwise |
| `DriveSyncDown.RemainingStageAt` | gdrive.app.js:339-348 | with distinct titles, the remaining steps act on an item's entry only when no local name has its title, and then by that item's download or sub-pass |
| `DriveSyncDown.PlanAt` | gdrive.app.js:288-349 | at one entry, the whole plan is the entry steps followed by the remaining ones |
| `DriveSyncDown.EntryStepsMirror` | gdrive.app.js:307-320 | a paired entry ends as a directory if it was one; a file ends with its own content when the checksums match and with Drive's content otherwise |
| `DriveSyncDown.PullMirrors` | gdrive.app.js:288-349 | with distinct remote titles, each item's entry afterwards is: missing before becomes the folder or the downloaded file; a directory stays; a file stays when its checksum matches and is downloaded over otherwise |
| `DriveSyncDown.MirroredAgrees` | gdrive.app.js:307-320 | an entry of the item's kind, or none, downloaded from a Drive that serves what its checksums describe, ends up present, of the item's kind, and with a matching checksum if it is a file |
| `DriveSyncDown.PullReachesMirror` | gdrive.app.js:288-349 | with distinct titles, without kind clashes, and with Drive serving content whose MD5 is the item's checksum, the pass leaves the folder mirroring the listing: same names, a directory exactly per folder, every file's checksum matching |
| `DriveSyncDown.SettledEntryPlan` | gdrive.app.js:307-320 | when every name is paired and every file's checksum matches, the entry steps are only sub-passes |
| `DriveSyncDown.NothingRemoved` | gdrive.app.js:329-335 | when every listed name has a remote match, nothing is removed |
| `DriveSyncDown.MirrorPairsAll` | gdrive.app.js:296-336 | when the local names are exactly the remote titles, every name is paired and the marker list ends empty |
| `DriveSyncDown.PullSettled` | gdrive.app.js:288-349 | over a folder already mirroring the listing, a pass removes nothing and downloads nothing, and only descends into sub-folders |
| `DriveSyncUp.ReconcileEntry` | gdrive.app.js:380-423 | one entry of the push loop: it schedules that entry's steps (a sub-pass, an upload when checksums differ, or the insert `createRemoteItem` builds when unpaired) and drops a paired entry's first match from the marker list |
| `DriveSyncUp.EntrySteps` | gdrive.app.js:380-423 | definition of what one local entry schedules: a sub-pass for a directory, an upload for a file whose checksum differs, the `createRemoteItem` insert when unpaired; its shape is proved by `DriveSyncUp.EntryStepsShape` |
| `DriveSyncUp.PushPlan` | gdrive.app.js:373-431 | definition of everything one push pass schedules: the entries' steps in listing order, then one delete per left-over index; a delete names a listed item, every other step comes from an entry directly inside the folder |
| `DriveSyncUp.ProcessRemoteItemList` | gdrive.app.js:373-431 | the push pass reads the disk only: a failed listing stops; otherwise the listing names each entry once, and the steps are `PushPlan`, entry steps then one delete per left-over item |
| `DriveSyncUp.ScheduleDeletes` | gdrive.app.js:427-430 | one delete per left-over index, in order |
| `DriveSyncUp.PassAdvances` | gdrive.app.js:379-424 | one more entry handled moves the marker list and the plan on to the longer listing prefix |
| `DriveSyncUp.Put` | gdrive.app.js:180-226 | recording one item's new state changes that id only |
| `DriveSyncUp.PushEffect` | gdrive.app.js:144-226 | definition of what one Drive call does to the item under its id: an insert files an item under its new id; an update or delete never creates an item, and an update keeps the id, title and type, changing only the checksum |
| `DriveSyncUp.ApplyPushAt` | gdrive.app.js:180-226 | the steps act on each remote id independently |
| `DriveSyncUp.OldKey` | gdrive.app.js:180-226 | on an id issued before the pass, only the updates and deletes aimed at it count |
| `DriveSyncUp.OldAfterAppend` | gdrive.app.js:180-226 | an old id's fate under two step lists in a row is its fate under the first then the second |
| `DriveSyncUp.FreshKey` | gdrive.app.js:163-177 | the new id of the `k`-th step holds the inserted item exactly when that step is an insert |
| `DriveSyncUp.OldAfterNone` | gdrive.app.js:180-226 | updates and deletes never make an item appear under an id that had none |
| `DriveSyncUp.EntryPlanShape` | gdrive.app.js:379-424 | every entry step comes from the listed entry its path names; every such entry's steps are in the plan |
| `DriveSyncUp.EntryStepsShape` | gdrive.app.js:393-423 | an entry schedules at most one step, from its own path, and any upload targets a listed item |
| `DriveSyncUp.EntryPlanPathsDistinct` | gdrive.app.js:379-424 | with each name listed once, no two entry steps come from the same path |
| `DriveSyncUp.EntryPlanOld` | gdrive.app.js:393-416 | at a listed item's id, the entry plan is just the steps of the item's title |
| `DriveSyncUp.EntryStepsElsewhere` | gdrive.app.js:393-416 | an entry's steps never touch an item that is not its first match |
| `DriveSyncUp.DeletePlanOld` | gdrive.app.js:427-430 | the delete plan removes exactly the left-over items |
| `DriveSyncUp.DeletePlanShape` | gdrive.app.js:427-430 | the delete plan holds only deletes of listed items |
| `DriveSyncUp.PlanAimsAtOld` | gdrive.app.js:373-431 | every update and delete of the plan targets an id issued before the pass |
| `DriveSyncUp.OldItemAfter` | gdrive.app.js:373-431 | after the pass a listed item is kept, with its checksum refreshed by an upload, when it is paired; otherwise it is deleted |
| `DriveSyncUp.ClaimedEffect` | gdrive.app.js:400-411 | a paired item is unchanged unless it is a file whose checksum differs, which then carries the local file's checksum |
| `DriveSyncUp.NewItemAfter` | gdrive.app.js:419-423 | a new id holds an item after the pass exactly when the matching step is an insert |
| `DriveSyncUp.CreateFacts` | gdrive.app.js:419-423 | an insert comes from a listed, unpaired entry and is the request `createRemoteItem` builds for it |
| `DriveSyncUp.CreateStep` | gdrive.app.js:379-423 | an insert scheduled for an entry comes from an entry no remote item is titled after, and is the request `createRemoteItem` builds for it |
| `DriveSyncUp.KeysAfter` | gdrive.app.js:373-431 | an id left after the pass is a paired listed item's or a new insert's |
| `DriveSyncUp.OldTitle` | gdrive.app.js:393-416 | a paired item stays, under its own id and title |
| `DriveSyncUp.NewTitle` | gdrive.app.js:144-177 | an insert files an item titled by its entry, an entry no listed item was titled after and not a skipped `.svn` directory |
| `DriveSyncUp.TitleAfter` | gdrive.app.js:373-431 | every item left after the pass is titled by a listed, not skipped, local name |
| `DriveSyncUp.PushTitles` | gdrive.app.js:373-431 | afterwards the remote titles are exactly the local names, less an unpaired `.svn` directory |
| `DriveSyncUp.UploadedPresent` | gdrive.app.js:373-431 | every uploaded local name has an item afterwards |
| `DriveSyncUp.PushDistinct` | gdrive.app.js:373-431 | no two items share a title afterwards, even when the listing had duplicates: the later ones are deleted |
| `DriveSyncUp.DistinctFromOld` | gdrive.app.js:373-431 | a paired item's title differs from every other remaining item's |
| `DriveSyncUp.DistinctOldOld` | gdrive.app.js:393-416 | two paired items keep distinct titles |
| `DriveSyncUp.DistinctOldNew` | gdrive.app.js:419-423 | a paired item and an inserted one have distinct titles |
| `DriveSyncUp.NewNewDistinct` | gdrive.app.js:419-423 | two inserts have distinct titles |
| `DriveSyncUp.ClaimedReflects` | gdrive.app.js:400-411 | a paired item afterwards stands for its local entry and carries a local file's checksum; with agreeing kinds it is a folder exactly for a directory |
| `DriveSyncUp.CreatedReflects` | gdrive.app.js:144-161 | an inserted item stands for its local entry, carries a file's checksum, and is a folder exactly for a directory |
| `DriveSyncUp.PushContents` | gdrive.app.js:373-431 | after the pass every remote item carries the checksum of the local file of its title, and, when kinds agreed, is a folder exactly for a directory |
| `DriveSyncUp.ApplySyncUps` | gdrive.app.js:396-398 | sub-passes alone leave this folder's items unchanged |
| `DriveSyncUp.SettledEntryPlan` | gdrive.app.js:393-416 | when every name is paired and every file's checksum matches, the entry steps are only sub-passes |
| `DriveSyncUp.PushSettled` | gdrive.app.js:373-431 | over a remote folder already mirroring the local one, a pass uploads, inserts and deletes nothing, and leaves the folder as it was |
| `Pagination.Fetch` | gdrive.app.js:69-90 | a listing's first request carries the given page token; it can deliver only if it got an answer to each request |
| `Pagination.RetrieveAllItemsInFolder` | gdrive.app.js:66-94 | `retrieveAllItemsInFolder`: the first request carries no `pageToken`, and a listing delivers only after an answer to each request it sent |
| `Pagination.NextTokens` | gdrive.app.js:83-86 | each request after a page carries that page's `nextPageToken` |
| `Pagination.RunDelivers` | gdrive.app.js:66-94 | an uninterrupted listing delivers its pages' items concatenated in order; it asks for each next page with the previous token, and reads nothing after the first page without a token (an empty folder yields `[]`) |
| `Pagination.ErrorRestarts` | gdrive.app.js:75-80 | an error drops what the broken listing had gathered and starts afresh from `[]` and the first page |
| `Pagination.RetriesTransparent` | gdrive.app.js:66-94 | however many listings errors cut short, the callback receives exactly the pages of the uninterrupted one, each once |
| `RemoteHierarchy.Split` | gdrive.app.js:97 | `split('/')` yields at least one piece, and no piece holds a slash |
| `RemoteHierarchy.UnsplitSplit` | gdrive.app.js:97 | joining the pieces with `/` gives the path back |
| `RemoteHierarchy.SplitFreeHead` | gdrive.app.js:97 | a slash-free head joins the first piece of what follows it |
| `RemoteHierarchy.SplitUnsplit` | gdrive.app.js:97 | splitting joined slash-free pieces gives the pieces back |
| `RemoteHierarchy.FirstFolder` | gdrive.app.js:108-118 | the query answer with `maxResults: 1` is the first non-trashed folder of that title under the parent, or none |
| `RemoteHierarchy.FirstFolderKept` | gdrive.app.js:108-118 | filing more items keeps the folder the query found |
| `RemoteHierarchy.FirstFolderNew` | gdrive.app.js:123-134 | a folder inserted when the query found none is what it finds next |
| `RemoteHierarchy.DriveStore.constructor` | gdrive.app.js:110 | a store starts with the given items and no calls answered |
| `RemoteHierarchy.DriveStore.ListFolder` | gdrive.app.js:110-114 | one call is counted; on error there is no answer, otherwise the first matching folder's id or nothing; items unchanged |
| `RemoteHierarchy.DriveStore.InsertFolder` | gdrive.app.js:123-132 | one call is counted; on error nothing is filed, otherwise a folder titled and parented as asked is filed under the next serial |
| `RemoteHierarchy.NewFolder` | gdrive.app.js:124-128 | the inserted resource is a non-trashed folder of the segment's title under the parent |
| `RemoteHierarchy.WalkSpec` | gdrive.app.js:100-139 | a walk makes at most two calls per segment |
| `RemoteHierarchy.GetOrCreateRemoteBaseHierarchy` | gdrive.app.js:96-142 | the `shift` loop leaves the store, and calls back, as `WalkSpec` of the split path from `'root'` |
| `RemoteHierarchy.WalkGrows` | gdrive.app.js:123-134 | the walk only appends items, each a non-trashed folder titled by a segment |
| `RemoteHierarchy.WalkFails` | gdrive.app.js:113-131 | the walk calls back exactly when none of its calls fails: an error ends it without retry |
| `RemoteHierarchy.WalkResolves` | gdrive.app.js:100-139 | the folder the walk calls back with is the one the segments name, by first matches, in the store it leaves |
| `RemoteHierarchy.ResolvedWalk` | gdrive.app.js:100-119 | a path that already resolves is walked with one query per segment and no insert |
| `RemoteHierarchy.WalkIdempotent` | gdrive.app.js:96-142 | walking the same path again after a walk that called back inserts nothing and calls back with the same id |
| `RemoteHierarchy.WalkFromRoot` | gdrive.app.js:96-142 | with no failing call the walk from `'root'` calls back, with the folder the split path resolves to |

## Behaviour worth knowing

- **Remote path walk** (gdrive.app.js:110-119). The walk descends whenever at least one folder matches: the query sets `maxResults: 1`, so `length === 1` means "some match", and the walk descends into the first.
- **Errors in the walk** (gdrive.app.js:114, 130). An API error does not retry: it logs and returns, so the callback never fires (`WalkFails`).
- **Paginated listing** (gdrive.app.js:75-80). An error restarts the whole listing from `[]` and the first page; no single page is retried.
- **Paired entries of the other kind** (gdrive.app.js:307-320, 396-411). Pairing checks only the title.
    - A local directory paired with a remote file gets a sub-pass.
    - A local file paired with a remote folder is compared by checksum. A folder has no checksum, so the file is downloaded over (Pull), as far as Drive serves content for it (a get that never succeeds is retried forever), or uploaded (Push).
- **Duplicate remote titles** (gdrive.app.js:301-325).
    - Push: every item after the first of a title stays in the marker list and is deleted (`PushDistinct`).
    - Pull: such an item is downloaded (or descended into) at the same local path as the first. The pull mirror lemmas therefore assume distinct titles.

## Left out

- **OAuth:** credential loading, the token exchange, the `readline` prompt and `auth.json` (gdrive.app.js:18-64) are I/O around a foreign library.
- **Entry points:** `DriveSyncDown.Run`, `DriveSyncUp.Run` (gdrive.app.js:351-357, 433-439) and the top-level invocations (gdrive.app.js:444-448) only chain the credentials, the walk and the first pass. The walk and the pass are modelled; their chaining by callbacks is not.
- **The `drive: drive` export** (gdrive.app.js:238) is captured before assignment and is never used.
- **Recursion into sub-folders:** `syncRemoteFolderWithLocalFolder` and `syncLocalFolderWithRemoteFolder` (gdrive.app.js:282-286, 367-371) list a folder and run a pass over it. The model stops at the step that starts them (`SyncDown`, `SyncUp`, and an insert of a folder). The folder's own pass is the same method applied again; the mirror lemmas cover one folder level.
- **Retries (`invokeLater`):** the retry timer in `invokeLater` (gdrive.app.js:228-235), with its random delay, is timing. A retried insert, update, get or delete (gdrive.app.js:163-169, 184-190, 200-206, 216-222) is modelled as taking effect once: the call is re-issued unchanged until it succeeds. The listing's restart is modelled (`Pagination`).
- **Asynchrony:** the calls a pass starts run in parallel and complete in any order. The model runs them one after the other, in the order they were started.
- **Logging:** `console.log` output is not modelled.
- **MD5:** `crypto`'s MD5 is a function parameter, `md5`; nothing is assumed about it.
- **Drive's own behaviour:**
    - The store's listing order is taken as given, in the pull and push passes, and as filing order in the walk.
    - After an insert or an update with a media body, Drive's `md5Checksum` is taken to be the MD5 of the uploaded body (`Inserted`, `PushEffect`). `PushContents`, `ClaimedReflects` and `CreatedReflects` depend on this.
    - Drive's inferred mime type for an uploaded file is modelled as the empty string; only "not a folder" matters.
    - An item Drive serves for download is a function parameter, `served`.
- **Exceptions thrown by the pass itself:** a synchronous `ensureFolderExistsSync` or `readdirSync` that throws is modelled as a `Fail` outcome of the pass.
- **`statSync` and `readFileSync`** on a listed entry are taken to succeed. A race with another process is not modelled.
- **Paths:** no separators, normalisation or repeated separators. `localFolderPath.split(path.sep)` and `path.join` are modelled as segment sequences. The pull pass's `'\\'` join is modelled as the same `Join`, which is right for Windows paths only, the program's own use (gdrive.app.js:445). On POSIX, `localFolderPath + '\\' + title` names a sibling `dir\title` in the parent folder, and `split(path.sep)` of an absolute path starts with `""`, so the prefixes `path.join` builds are relative; the pull lemmas do not describe those runs.
- **File name case:** names are compared case-sensitively, as the code compares titles with `===`. On a case-insensitive volume (NTFS, the usual target of the `'\\'` join) titles that differ only in case, such as `A` and `a`, share one entry. `PullConverges`, `PullMirrors` and `PullReachesMirror` do not hold there: their conclusion counts such titles as separate entries.
- **Uncaught exceptions in callbacks:** the `writeFileSync` of a download (gdrive.app.js:209) and a sub-pass's `ensureFolderExistsSync` and `readdirSync` run inside API callbacks. An exception there is uncaught and ends the Node process, with every other pass and pending step. The model instead leaves the disk unchanged and carries on. Example: a listing [file `a`, folder `a`] over an empty folder schedules a download and a sub-pass at the same path; whichever runs second throws (EISDIR or ENOTDIR) and the real run aborts, while `PullConverges` describes a finished run.
- **Quotes in folder names:** the walk's query (gdrive.app.js:108) is built by string concatenation, so a segment containing `'` makes a malformed query. Drive then answers with an error and the walk stops; the model covers that only as a failing call (`WalkFails`), not by parsing the query.
- **Fields the code never reads** (sizes, dates, the other file resource fields) are not modelled.
