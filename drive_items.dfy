/**
 * The Drive side of the data model: items as `drive.files.list` returns them,
 * and the insert resource `createRemoteItem` builds.
 */
module DriveItems {
  import opened Wrappers
  import opened Fingerprint
  import opened Paths

  /** The mime type Drive gives to folders. */
  const FOLDER_MIME: string := "application/vnd.google-apps.folder"

  /**
   * Drive ids are opaque strings; `Root` stands for the alias `'root'` and
   * `Issued(n)` for the n-th id the store hands out.
   */
  datatype Id = Root | Issued(serial: nat)

  /** The fields of a listed file resource that the program reads. */
  datatype RemoteItem = RemoteItem(id: Id, title: string, mimeType: string, md5Checksum: Option<string>)

  predicate IsFolder(item: RemoteItem)
  {
    item.mimeType == FOLDER_MIME
  }

  /**
   * `remoteItem.md5Checksum === fileHash`: only the checksum is compared,
   * and an item without one (a folder) never matches.
   */
  predicate ChecksumMatches(item: RemoteItem, buffer: Bytes, md5: Md5): (b: bool)
    ensures b ==> item.md5Checksum.Some?
  {
    item.md5Checksum == Some(md5(buffer))
  }

  /** The titles present in a listing. */
  function Titles(items: seq<RemoteItem>): (t: set<string>)
    ensures forall i :: 0 <= i < |items| ==> items[i].title in t
    ensures forall n :: n in t ==> exists i :: 0 <= i < |items| && items[i].title == n
  {
    set i | 0 <= i < |items| :: items[i].title
  }

  /** No two items of a listing share a title. */
  predicate DistinctTitles(items: seq<RemoteItem>)
  {
    forall i, j :: 0 <= i < j < |items| ==> items[i].title != items[j].title
  }

  /** The `itemToInsert` of `drive.files.insert`: its resource and, for a file, the media body. */
  datatype InsertRequest = InsertRequest(title: string, parents: seq<Id>, mimeType: Option<string>, media: Option<Bytes>)

  /**
   * `createRemoteItem(localItemFullPath, buffer, remoteFolderId, isDirectory)`:
   * nothing for a directory called `.svn`, otherwise one insert of an item
   * titled by the local base name under `remoteFolderId`: a folder, or a file
   * whose body is the buffer. (For a directory the program passes no buffer;
   * the model's buffer is then ignored.)
   */
  function CreateRemoteItem(localItemFullPath: Path, buffer: Bytes, remoteFolderId: Id, isDirectory: bool): (r: Option<InsertRequest>)
    ensures r.None? <==> isDirectory && Basename(localItemFullPath) == ".svn"
    ensures r.Some? ==> r.value.title == Basename(localItemFullPath) && r.value.parents == [remoteFolderId]
    ensures r.Some? ==> (r.value.mimeType == Some(FOLDER_MIME) <==> isDirectory) && (r.value.media.Some? <==> !isDirectory)
    ensures r.Some? && !isDirectory ==> r.value.media == Some(buffer) && r.value.mimeType.None?
  {
    var localItemName := Basename(localItemFullPath);
    if isDirectory && localItemName == ".svn" then None
    else if isDirectory then Some(InsertRequest(localItemName, [remoteFolderId], Some(FOLDER_MIME), None))
    else Some(InsertRequest(localItemName, [remoteFolderId], None, Some(buffer)))
  }
}
