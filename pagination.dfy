/**
 * `retrieveAllItemsInFolder`: the children of a remote folder, fetched page
 * by page. Drive's answers are given as the sequence of responses it sends,
 * one per request, in order; a failed request starts the listing again.
 */
module Pagination {
  import opened Wrappers
  import opened DriveItems

  /** One answer of `drive.files.list`: an error, or a page and its `nextPageToken`. */
  datatype ListResponse = ApiError | Page(items: seq<RemoteItem>, nextPageToken: Option<string>)

  /** `if (nextPageToken)`: a token that is present and not the empty string. */
  predicate HasNext(r: ListResponse)
  {
    r.Page? && r.nextPageToken.Some? && r.nextPageToken.value != ""
  }

  /**
   * What a listing does: the `pageToken` of every request it sends (`None`
   * when the parameter is left out), and the items handed to the callback,
   * if the callback is reached before the responses run out.
   */
  datatype Listing = Listing(requests: seq<Option<string>>, delivered: Option<seq<RemoteItem>>)

  /**
   * `retrieveSinglePageOfItems(items, nextPageToken)` answered by `responses`:
   * an error waits (`invokeLater`) and calls `retrieveAllItemsInFolder` again,
   * which starts from `[]` with no token; a page is appended to `items`, and
   * its token, if any, asks for the next page.
   */
  function Fetch(responses: seq<ListResponse>, items: seq<RemoteItem>, pageToken: Option<string>): (l: Listing)
    ensures |l.requests| >= 1 && l.requests[0] == pageToken
    ensures l.delivered.Some? ==> |l.requests| <= |responses|
    decreases |responses|
  {
    if responses == [] then Listing([pageToken], None)
    else
      var rest := Fetch(responses[1..], [], None);
      match responses[0]
      case ApiError => Listing([pageToken] + rest.requests, rest.delivered)
      case Page(page, next) =>
        var acc := items + page;
        if HasNext(responses[0]) then
          var more := Fetch(responses[1..], acc, next);
          Listing([pageToken] + more.requests, more.delivered)
        else Listing([pageToken], Some(acc))
  }

  /** `retrieveAllItemsInFolder(remoteFolderId, callback)`. */
  function RetrieveAllItemsInFolder(responses: seq<ListResponse>): (l: Listing)
    ensures |l.requests| >= 1 && l.requests[0] == None
    ensures l.delivered.Some? ==> |l.requests| <= |responses|
  {
    Fetch(responses, [], None)
  }

  /** The pages of one uninterrupted listing: every page but the last names a next one. */
  predicate CompleteRun(pages: seq<ListResponse>)
  {
    |pages| > 0 &&
    (forall k :: 0 <= k < |pages| ==> pages[k].Page?) &&
    (forall k :: 0 <= k < |pages| - 1 ==> HasNext(pages[k])) &&
    !HasNext(pages[|pages| - 1])
  }

  /** The pages of a listing an error cut short: each of them names a next page. */
  predicate BrokenRun(pages: seq<ListResponse>)
  {
    forall k :: 0 <= k < |pages| ==> HasNext(pages[k])
  }

  /** The items of the pages, in order. */
  function Concat(pages: seq<ListResponse>): seq<RemoteItem>
    requires forall k :: 0 <= k < |pages| ==> pages[k].Page?
  {
    if pages == [] then [] else pages[0].items + Concat(pages[1..])
  }

  /** The token each page sends the listing on with, and the request that follows it. */
  function NextTokens(pages: seq<ListResponse>): (t: seq<Option<string>>)
    requires forall k :: 0 <= k < |pages| ==> pages[k].Page?
    ensures |t| == |pages| && forall k :: 0 <= k < |pages| ==> t[k] == pages[k].nextPageToken
  {
    if pages == [] then [] else [pages[0].nextPageToken] + NextTokens(pages[1..])
  }

  /**
   * An uninterrupted listing hands over the in-order concatenation of its
   * pages, asks for each page after the first with the token of the one
   * before, and sends nothing once a page has no token: the responses after
   * it are never read. (An empty folder answers with one empty page and
   * yields `[]`.)
   */
  lemma {:induction false} RunDelivers(pages: seq<ListResponse>, rest: seq<ListResponse>,
                                       items: seq<RemoteItem>, pageToken: Option<string>)
    requires CompleteRun(pages)
    ensures Fetch(pages + rest, items, pageToken) ==
            Listing([pageToken] + NextTokens(pages[..|pages| - 1]), Some(items + Concat(pages)))
    decreases |pages|
  {
    var p := pages[0];
    assert (pages + rest)[0] == p && (pages + rest)[1..] == pages[1..] + rest;
    if |pages| == 1 {
      assert p.Page? && !HasNext(p) && pages[..0] == [] && pages[1..] == [];
      assert [pageToken] + NextTokens([]) == [pageToken];
      assert Concat(pages) == p.items + Concat([]) == p.items;
    } else {
      var tail := pages[1..];
      assert CompleteRun(tail) by {
        assert forall k :: 0 <= k < |tail| ==> tail[k] == pages[k + 1];
      }
      RunDelivers(tail, rest, items + p.items, p.nextPageToken);
      assert tail[..|tail| - 1] == pages[..|pages| - 1][1..];
      assert items + p.items + Concat(tail) == items + Concat(pages);
    }
  }

  /**
   * A failed request throws away what the broken listing had gathered: what
   * follows the error is a fresh listing, from `[]` and the first page.
   */
  lemma {:induction false} ErrorRestarts(attempt: seq<ListResponse>, rest: seq<ListResponse>,
                                         items: seq<RemoteItem>, pageToken: Option<string>)
    requires BrokenRun(attempt)
    ensures Fetch(attempt + [ApiError] + rest, items, pageToken).delivered == RetrieveAllItemsInFolder(rest).delivered
    decreases |attempt|
  {
    var all := attempt + [ApiError] + rest;
    if attempt == [] {
      assert all[0] == ApiError && all[1..] == rest;
    } else {
      var p := attempt[0];
      assert all[0] == p && all[1..] == attempt[1..] + [ApiError] + rest;
      assert BrokenRun(attempt[1..]) by {
        assert forall k :: 0 <= k < |attempt[1..]| ==> attempt[1..][k] == attempt[k + 1];
      }
      ErrorRestarts(attempt[1..], rest, items + p.items, p.nextPageToken);
    }
  }

  /** The responses of broken listings, each ended by its error. */
  function Failures(attempts: seq<seq<ListResponse>>): seq<ListResponse>
  {
    if attempts == [] then [] else attempts[0] + [ApiError] + Failures(attempts[1..])
  }

  /**
   * Retries are transparent: however many listings errors cut short, the
   * callback receives exactly the items of the uninterrupted one that
   * follows, each page's items once.
   */
  lemma {:induction false} RetriesTransparent(attempts: seq<seq<ListResponse>>, pages: seq<ListResponse>,
                                              rest: seq<ListResponse>)
    requires forall a :: 0 <= a < |attempts| ==> BrokenRun(attempts[a])
    requires CompleteRun(pages)
    ensures RetrieveAllItemsInFolder(Failures(attempts) + pages + rest).delivered == Some(Concat(pages))
    decreases |attempts|
  {
    if attempts == [] {
      assert Failures(attempts) + pages + rest == pages + rest;
      RunDelivers(pages, rest, [], None);
      assert [] + Concat(pages) == Concat(pages);
    } else {
      var later := Failures(attempts[1..]) + pages + rest;
      assert Failures(attempts) + pages + rest == attempts[0] + [ApiError] + later;
      ErrorRestarts(attempts[0], later, [], None);
      RetriesTransparent(attempts[1..], pages, rest);
    }
  }
}
