/**
 * `getOrCreateRemoteBaseHierarchy`: the remote folder a `/`-separated path
 * names, found or created one segment at a time from `'root'`.
 */
module RemoteHierarchy {
  import opened Wrappers
  import opened DriveItems

  // ---- `remoteFolderPath.split('/')`.

  /** JavaScript's `s.split('/')`: the pieces between slashes, empty ones included. */
  function Split(s: string): (r: seq<string>)
    ensures |r| >= 1
    ensures forall k :: 0 <= k < |r| ==> '/' !in r[k]
    decreases |s|
  {
    if s == [] then [""]
    else
      var rest := Split(s[1..]);
      if s[0] == '/' then [""] + rest else [[s[0]] + rest[0]] + rest[1..]
  }

  /** `segments.join('/')`. */
  function Unsplit(segments: seq<string>): string
    requires |segments| >= 1
    decreases |segments|
  {
    if |segments| == 1 then segments[0] else segments[0] + "/" + Unsplit(segments[1..])
  }

  /** Joining the pieces again gives back the path. */
  lemma {:induction false} UnsplitSplit(s: string)
    ensures Unsplit(Split(s)) == s
    decreases |s|
  {
    if s != [] {
      var rest := Split(s[1..]);
      UnsplitSplit(s[1..]);
      if s[0] == '/' {
        assert ([""] + rest)[1..] == rest;
      } else {
        var r := [[s[0]] + rest[0]] + rest[1..];
        assert r[1..] == rest[1..];
        if |rest| > 1 {
          assert rest[1..][0..] == rest[1..];
          assert Unsplit(rest) == rest[0] + "/" + Unsplit(rest[1..]);
        }
      }
    }
  }

  /** Splitting before the first slash: a slash-free head joins the first piece of what follows. */
  lemma {:induction false} SplitFreeHead(x: string, y: string)
    requires '/' !in x
    ensures Split(x + y) == [x + Split(y)[0]] + Split(y)[1..]
    decreases |x|
  {
    if x != [] {
      assert (x + y)[0] == x[0] && (x + y)[1..] == x[1..] + y;
      SplitFreeHead(x[1..], y);
      assert [x[0]] + (x[1..] + Split(y)[0]) == x + Split(y)[0];
    } else {
      var r := Split(y);
      assert x + y == y && x + r[0] == r[0] && [r[0]] + r[1..] == r;
    }
  }

  /** Splitting the joined pieces gives the pieces back, when none of them holds a slash. */
  lemma {:induction false} SplitUnsplit(segments: seq<string>)
    requires |segments| >= 1 && forall k :: 0 <= k < |segments| ==> '/' !in segments[k]
    ensures Split(Unsplit(segments)) == segments
    decreases |segments|
  {
    var head := segments[0];
    if |segments| == 1 {
      SplitFreeHead(head, "");
      assert head + "" == head;
    } else {
      var tail := segments[1..];
      SplitUnsplit(tail);
      var t := Unsplit(tail);
      assert head + "/" + t == head + ("/" + t);
      SplitFreeHead(head, "/" + t);
      assert ("/" + t)[0] == '/' && ("/" + t)[1..] == t;
      assert Split("/" + t) == [""] + tail;
      assert head + "" == head;
    }
  }

  // ---- The remote store the walk queries.

  /** A stored file resource, as much of it as the walk's query and insert touch. */
  datatype StoredItem = StoredItem(title: string, mimeType: string, parents: seq<Id>, trashed: bool)

  /** The walk's query: `mimeType`, `trashed`, `title` and `in parents`. */
  predicate IsFolderIn(item: StoredItem, title: string, parent: Id)
  {
    item.mimeType == FOLDER_MIME && !item.trashed && item.title == title && parent in item.parents
  }

  /** The folder `drive.files.list` with `maxResults: 1` names first (items in the order they were filed). */
  function FirstFolder(items: seq<StoredItem>, title: string, parent: Id): (r: Option<nat>)
    ensures r.Some? ==> r.value < |items| && IsFolderIn(items[r.value], title, parent)
    ensures r.Some? ==> forall k :: 0 <= k < r.value ==> !IsFolderIn(items[k], title, parent)
    ensures r.None? ==> forall k :: 0 <= k < |items| ==> !IsFolderIn(items[k], title, parent)
    decreases |items|
  {
    if items == [] then None
    else
      var k := |items| - 1;
      var earlier := FirstFolder(items[..k], title, parent);
      if earlier.Some? then earlier
      else if IsFolderIn(items[k], title, parent) then Some(k)
      else None
  }

  /** Filing more items keeps the first folder found. */
  lemma FirstFolderKept(items: seq<StoredItem>, more: seq<StoredItem>, title: string, parent: Id)
    requires FirstFolder(items, title, parent).Some?
    ensures FirstFolder(items + more, title, parent) == FirstFolder(items, title, parent)
  {
    var all := items + more;
    var k := FirstFolder(items, title, parent).value;
    assert forall j :: 0 <= j <= k ==> all[j] == items[j];
  }

  /** A folder filed when there was none becomes the first. */
  lemma FirstFolderNew(items: seq<StoredItem>, more: seq<StoredItem>, title: string, parent: Id)
    requires FirstFolder(items, title, parent).None? && more != [] && IsFolderIn(more[0], title, parent)
    ensures FirstFolder(items + more, title, parent) == Some(|items|)
  {
    var all := items + more;
    assert all[|items|] == more[0];
    assert forall j :: 0 <= j < |items| ==> all[j] == items[j];
  }

  /**
   * Drive as the walk sees it: the item with id `Issued(k)` is `items[k]`;
   * `calls` counts the requests answered so far and the ones numbered in
   * `failing` come back with an error.
   */
  class DriveStore {
    var items: seq<StoredItem>
    var calls: nat
    const failing: set<nat>

    constructor(items0: seq<StoredItem>, failing0: set<nat>)
      ensures items == items0 && calls == 0 && failing == failing0
    {
      items := items0;
      calls := 0;
      failing := failing0;
    }

    /** `drive.files.list({ maxResults: 1, q })` for the folders titled `title` under `parent`. */
    method ListFolder(title: string, parent: Id) returns (r: Option<seq<Id>>)
      modifies this
      ensures items == old(items) && calls == old(calls) + 1
      ensures r == if old(calls) in failing then None
                   else Some(match FirstFolder(items, title, parent) case Some(k) => [Issued(k)] case None => [])
    {
      r := if calls in failing then None
           else Some(match FirstFolder(items, title, parent) case Some(k) => [Issued(k)] case None => []);
      calls := calls + 1;
    }

    /** `drive.files.insert` of a folder titled `title` under `parent`; the new id is the next serial. */
    method InsertFolder(title: string, parent: Id) returns (r: Option<Id>)
      modifies this
      ensures calls == old(calls) + 1
      ensures old(calls) in failing ==> items == old(items) && r.None?
      ensures old(calls) !in failing ==> items == old(items) + [NewFolder(title, parent)] && r == Some(Issued(|old(items)|))
    {
      if calls in failing {
        r := None;
      } else {
        r := Some(Issued(|items|));
        items := items + [NewFolder(title, parent)];
      }
      calls := calls + 1;
    }
  }

  /** The resource the walk inserts. */
  function NewFolder(title: string, parent: Id): (f: StoredItem)
    ensures IsFolderIn(f, title, parent)
  {
    StoredItem(title, FOLDER_MIME, [parent], false)
  }

  // ---- The walk.

  /** Where a walk leaves the store, and the folder it hands to the callback, if it reaches it. */
  datatype Walk = Walk(items: seq<StoredItem>, calls: nat, folder: Option<Id>)

  /**
   * `getOrCreateSingleRemoteFolder(parentId)` with `segments` left to shift:
   * none left calls back with `parentId`; otherwise the first folder of the
   * segment's title under `parentId` is descended into, or a new one is
   * inserted and descended into. An error ends the walk without a callback.
   */
  function WalkSpec(items: seq<StoredItem>, calls: nat, failing: set<nat>, segments: seq<string>, parentId: Id): (w: Walk)
    ensures calls <= w.calls <= calls + 2 * |segments|
    decreases |segments|
  {
    if segments == [] then Walk(items, calls, Some(parentId))
    else if calls in failing then Walk(items, calls + 1, None)
    else
      match FirstFolder(items, segments[0], parentId)
      case Some(k) => WalkSpec(items, calls + 1, failing, segments[1..], Issued(k))
      case None =>
        if calls + 1 in failing then Walk(items, calls + 2, None)
        else WalkSpec(items + [NewFolder(segments[0], parentId)], calls + 2, failing, segments[1..], Issued(|items|))
  }

  /**
   * `getOrCreateRemoteBaseHierarchy(remoteFolderPath, callback)`: the walk
   * from `'root'`, which `shift`s the split path one segment at a time.
   */
  method GetOrCreateRemoteBaseHierarchy(store: DriveStore, remoteFolderPath: string) returns (r: Option<Id>)
    modifies store
    ensures var w := WalkSpec(old(store.items), old(store.calls), store.failing, Split(remoteFolderPath), Root);
            store.items == w.items && store.calls == w.calls && r == w.folder
  {
    var folderSegments := Split(remoteFolderPath);
    var parentId := Root;
    ghost var goal := WalkSpec(store.items, store.calls, store.failing, folderSegments, parentId);
    while true
      invariant WalkSpec(store.items, store.calls, store.failing, folderSegments, parentId) == goal
      decreases |folderSegments|
    {
      if folderSegments == [] {
        return Some(parentId);
      }
      ghost var items0, calls0, segments0, parent0 := store.items, store.calls, folderSegments, parentId;
      var remoteFolderName := folderSegments[0];
      folderSegments := folderSegments[1..];
      var response := store.ListFolder(remoteFolderName, parentId);
      if response.None? {
        assert WalkSpec(items0, calls0, store.failing, segments0, parent0) == Walk(items0, calls0 + 1, None);
        return None;
      }
      if |response.value| == 1 {
        parentId := response.value[0];
        assert WalkSpec(items0, calls0, store.failing, segments0, parent0) ==
               WalkSpec(store.items, store.calls, store.failing, folderSegments, parentId);
      } else {
        assert FirstFolder(items0, remoteFolderName, parent0).None?;
        var created := store.InsertFolder(remoteFolderName, parentId);
        if created.None? {
          assert WalkSpec(items0, calls0, store.failing, segments0, parent0) == Walk(items0, calls0 + 2, None);
          return None;
        }
        parentId := created.value;
        assert WalkSpec(items0, calls0, store.failing, segments0, parent0) ==
               WalkSpec(store.items, store.calls, store.failing, folderSegments, parentId);
      }
    }
  }

  // ---- What the walk achieves.

  /** No request numbered from `from` up to `to` fails. */
  predicate Reliable(failing: set<nat>, from: nat, to: nat)
  {
    forall c :: from <= c < to ==> c !in failing
  }

  /** The folder the segments name below `parentId`, following first matches and creating nothing. */
  function Resolve(items: seq<StoredItem>, parentId: Id, segments: seq<string>): Option<Id>
    decreases |segments|
  {
    if segments == [] then Some(parentId)
    else
      match FirstFolder(items, segments[0], parentId)
      case Some(k) => Resolve(items, Issued(k), segments[1..])
      case None => None
  }

  /**
   * The walk only files new items after the existing ones, and each is a
   * folder, not trashed, titled by one of the segments.
   */
  lemma {:induction false} WalkGrows(items: seq<StoredItem>, calls: nat, failing: set<nat>, segments: seq<string>, parentId: Id)
    ensures var w := WalkSpec(items, calls, failing, segments, parentId);
            |items| <= |w.items| && w.items[..|items|] == items &&
            forall k :: |items| <= k < |w.items| ==>
              w.items[k].mimeType == FOLDER_MIME && !w.items[k].trashed && w.items[k].title in segments
    decreases |segments|
  {
    if segments != [] && calls !in failing {
      var tail := segments[1..];
      assert forall t :: t in tail ==> t in segments;
      match FirstFolder(items, segments[0], parentId)
      case Some(k) =>
        WalkGrows(items, calls + 1, failing, tail, Issued(k));
      case None =>
        if calls + 1 !in failing {
          var next := items + [NewFolder(segments[0], parentId)];
          WalkGrows(next, calls + 2, failing, tail, Issued(|items|));
          var w := WalkSpec(next, calls + 2, failing, tail, Issued(|items|));
          assert w.items[..|items|] == w.items[..|next|][..|items|];
          assert w.items[|items|] == next[|items|];
        }
    }
  }

  /** The walk calls back exactly when none of its requests fails. */
  lemma {:induction false} WalkFails(items: seq<StoredItem>, calls: nat, failing: set<nat>, segments: seq<string>, parentId: Id)
    ensures var w := WalkSpec(items, calls, failing, segments, parentId);
            w.folder.Some? <==> Reliable(failing, calls, w.calls)
    decreases |segments|
  {
    if segments != [] && calls !in failing {
      match FirstFolder(items, segments[0], parentId)
      case Some(k) =>
        WalkFails(items, calls + 1, failing, segments[1..], Issued(k));
      case None =>
        if calls + 1 !in failing {
          WalkFails(items + [NewFolder(segments[0], parentId)], calls + 2, failing, segments[1..], Issued(|items|));
        }
    }
  }

  /** The folder the walk calls back with is the one the path names in the store it leaves behind. */
  lemma {:induction false} WalkResolves(items: seq<StoredItem>, calls: nat, failing: set<nat>, segments: seq<string>, parentId: Id)
    ensures var w := WalkSpec(items, calls, failing, segments, parentId);
            w.folder.Some? ==> Resolve(w.items, parentId, segments) == w.folder
    decreases |segments|
  {
    if segments != [] && calls !in failing {
      var s := segments[0];
      match FirstFolder(items, s, parentId)
      case Some(k) =>
        var w := WalkSpec(items, calls + 1, failing, segments[1..], Issued(k));
        WalkResolves(items, calls + 1, failing, segments[1..], Issued(k));
        WalkGrows(items, calls + 1, failing, segments[1..], Issued(k));
        FirstFolderKept(items, w.items[|items|..], s, parentId);
        assert items + w.items[|items|..] == w.items;
      case None =>
        if calls + 1 !in failing {
          var next := items + [NewFolder(s, parentId)];
          var w := WalkSpec(next, calls + 2, failing, segments[1..], Issued(|items|));
          WalkResolves(next, calls + 2, failing, segments[1..], Issued(|items|));
          WalkGrows(next, calls + 2, failing, segments[1..], Issued(|items|));
          FirstFolderNew(items, [NewFolder(s, parentId)], s, parentId);
          FirstFolderKept(next, w.items[|next|..], s, parentId);
          assert next + w.items[|next|..] == w.items;
        }
    }
  }

  /** A path that already resolves is walked without inserting anything, one query per segment. */
  lemma {:induction false} ResolvedWalk(items: seq<StoredItem>, calls: nat, failing: set<nat>, segments: seq<string>, parentId: Id)
    requires Resolve(items, parentId, segments).Some? && Reliable(failing, calls, calls + |segments|)
    ensures WalkSpec(items, calls, failing, segments, parentId) ==
            Walk(items, calls + |segments|, Resolve(items, parentId, segments))
    decreases |segments|
  {
    if segments != [] {
      var k := FirstFolder(items, segments[0], parentId).value;
      ResolvedWalk(items, calls + 1, failing, segments[1..], Issued(k));
    }
  }

  /**
   * Walking the same path again after a walk that called back inserts no
   * folder and calls back with the same id: the hierarchy is created once.
   */
  lemma WalkIdempotent(items: seq<StoredItem>, calls: nat, failing: set<nat>, segments: seq<string>, parentId: Id,
                       calls2: nat, failing2: set<nat>)
    requires WalkSpec(items, calls, failing, segments, parentId).folder.Some?
    requires Reliable(failing2, calls2, calls2 + |segments|)
    ensures var w := WalkSpec(items, calls, failing, segments, parentId);
            WalkSpec(w.items, calls2, failing2, segments, parentId) == Walk(w.items, calls2 + |segments|, w.folder)
  {
    var w := WalkSpec(items, calls, failing, segments, parentId);
    WalkResolves(items, calls, failing, segments, parentId);
    ResolvedWalk(w.items, calls2, failing2, segments, parentId);
  }

  /** With no failing request, the walk from `'root'` reaches a folder the split path resolves to. */
  lemma WalkFromRoot(items: seq<StoredItem>, calls: nat, failing: set<nat>, remoteFolderPath: string)
    requires Reliable(failing, calls, calls + 2 * |Split(remoteFolderPath)|)
    ensures var w := WalkSpec(items, calls, failing, Split(remoteFolderPath), Root);
            w.folder.Some? && Resolve(w.items, Root, Split(remoteFolderPath)) == w.folder
  {
    WalkFails(items, calls, failing, Split(remoteFolderPath), Root);
    WalkResolves(items, calls, failing, Split(remoteFolderPath), Root);
  }
}
