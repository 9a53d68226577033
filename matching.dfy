/**
 * The bookkeeping both reconciliation passes share: a local name is paired
 * with the first remote item carrying that title, and the marker list
 * `remoteItemsNotInLocal` keeps the indices nobody paired.
 */
module Matching {
  import opened Wrappers
  import opened Fingerprint
  import opened Paths
  import opened LocalFs
  import opened DriveItems

  /** The lowest index at or after `from` whose title is `name` (the inner loop and its `break`). */
  function FirstMatchFrom(items: seq<RemoteItem>, name: string, from: nat): (r: Option<nat>)
    requires from <= |items|
    ensures r.Some? ==> from <= r.value < |items| && items[r.value].title == name
    ensures r.Some? ==> forall j :: from <= j < r.value ==> items[j].title != name
    ensures r.None? ==> forall j :: from <= j < |items| ==> items[j].title != name
    decreases |items| - from
  {
    if from == |items| then None
    else if items[from].title == name then Some(from)
    else FirstMatchFrom(items, name, from + 1)
  }

  /** The remote item a local entry called `name` is paired with, if any. */
  function FirstMatch(items: seq<RemoteItem>, name: string): (r: Option<nat>)
    ensures r.Some? ==> r.value < |items| && items[r.value].title == name
    ensures r.Some? ==> forall j :: 0 <= j < r.value ==> items[j].title != name
    ensures r.None? ==> forall j :: 0 <= j < |items| ==> items[j].title != name
  {
    FirstMatchFrom(items, name, 0)
  }

  /** The remote indices claimed by the local names, taken in listing order. */
  function Claimed(items: seq<RemoteItem>, names: seq<string>): (c: set<nat>)
    ensures forall i :: i in c ==> i < |items|
  {
    if names == [] then {}
    else
      var earlier := Claimed(items, names[..|names| - 1]);
      match FirstMatch(items, names[|names| - 1])
      case Some(i) => earlier + {i}
      case None => earlier
  }

  lemma {:induction false} ClaimedMeans(items: seq<RemoteItem>, names: seq<string>, i: nat)
    ensures i in Claimed(items, names) <==>
            exists k :: 0 <= k < |names| && FirstMatch(items, names[k]) == Some(i)
  {
    if names != [] {
      var init := names[..|names| - 1];
      ClaimedMeans(items, init, i);
      if i in Claimed(items, init) {
        var k :| 0 <= k < |init| && FirstMatch(items, init[k]) == Some(i);
        assert names[k] == init[k];
      }
      if exists k :: 0 <= k < |names| && FirstMatch(items, names[k]) == Some(i) {
        var k :| 0 <= k < |names| && FirstMatch(items, names[k]) == Some(i);
        if k < |init| { assert init[k] == names[k]; }
      }
    }
  }

  /** `[0, 1, ..., n - 1]`, the marker list as the first loop builds it. */
  function Indices(n: nat): (s: seq<nat>)
    ensures |s| == n && forall k :: 0 <= k < n ==> s[k] == k
  {
    seq(n, k requires 0 <= k < n => k as nat)
  }

  /** `s.filter(value => !gone.has(value))`. */
  function Without(s: seq<nat>, gone: set<nat>): (r: seq<nat>)
    ensures forall x :: x in r <==> x in s && x !in gone
    ensures |r| <= |s|
  {
    if s == [] then []
    else (if s[0] in gone then [] else [s[0]]) + Without(s[1..], gone)
  }

  lemma {:induction false} WithoutNothing(s: seq<nat>)
    ensures Without(s, {}) == s
  {
    if s != [] {
      WithoutNothing(s[1..]);
    }
  }

  lemma {:induction false} WithoutTwice(s: seq<nat>, a: set<nat>, b: set<nat>)
    ensures Without(Without(s, a), b) == Without(s, a + b)
  {
    if s != [] {
      WithoutTwice(s[1..], a, b);
      if s[0] !in a {
        assert Without(s, a) == [s[0]] + Without(s[1..], a);
        assert Without(s, a)[1..] == Without(s[1..], a);
      } else {
        assert Without(s, a) == Without(s[1..], a);
      }
    }
  }

  lemma {:induction false} WithoutAll(s: seq<nat>, gone: set<nat>)
    requires forall j :: 0 <= j < |s| ==> s[j] in gone
    ensures Without(s, gone) == []
  {
    if s != [] {
      WithoutAll(s[1..], gone);
    }
  }

  predicate StrictlyIncreasing(s: seq<nat>)
  {
    forall i, j :: 0 <= i < j < |s| ==> s[i] < s[j]
  }

  lemma {:induction false} WithoutKeepsOrder(s: seq<nat>, gone: set<nat>)
    requires StrictlyIncreasing(s)
    ensures StrictlyIncreasing(Without(s, gone))
  {
    if s != [] {
      WithoutKeepsOrder(s[1..], gone);
      var rest := Without(s[1..], gone);
      forall x | x in rest ensures s[0] < x {
        var j :| 0 <= j < |s[1..]| && s[1..][j] == x;
        assert s[j + 1] == x;
      }
      var r := Without(s, gone);
      if s[0] in gone {
        assert r == rest;
      } else {
        assert r == [s[0]] + rest;
        forall i, j | 0 <= i < j < |r| ensures r[i] < r[j] {
          if i == 0 {
            assert r[j] == rest[j - 1];
            assert rest[j - 1] in rest;
          } else {
            assert r[i] == rest[i - 1] && r[j] == rest[j - 1];
          }
        }
      }
    }
  }

  /** The marker list after the local loop: the indices no local name claimed. */
  function Unclaimed(items: seq<RemoteItem>, names: seq<string>): (r: seq<nat>)
    ensures forall i :: i in r ==> i < |items|
    ensures forall j :: 0 <= j < |r| ==> r[j] < |items|
  {
    var r := Without(Indices(|items|), Claimed(items, names));
    assert forall j :: 0 <= j < |r| ==> r[j] in r;
    r
  }

  /**
   * The marker list left after the local loop holds, in ascending order and
   * each once, exactly the remote indices that were not the first title match
   * of any local name.
   */
  lemma UnclaimedSpec(items: seq<RemoteItem>, names: seq<string>)
    ensures StrictlyIncreasing(Unclaimed(items, names))
    ensures forall i: nat :: i in Unclaimed(items, names) <==>
              i < |items| && forall k :: 0 <= k < |names| ==> FirstMatch(items, names[k]) != Some(i)
  {
    WithoutKeepsOrder(Indices(|items|), Claimed(items, names));
    forall i: nat ensures i in Unclaimed(items, names) <==>
              i < |items| && forall k :: 0 <= k < |names| ==> FirstMatch(items, names[k]) != Some(i)
    {
      ClaimedMeans(items, names, i);
      assert i in Indices(|items|) <==> i < |items| by {
        if i < |items| { assert Indices(|items|)[i] == i; }
      }
    }
  }

  /**
   * First match wins: of two items with one title, the later one is never
   * paired, whatever the local names are.
   */
  lemma LaterDuplicateUnclaimed(items: seq<RemoteItem>, names: seq<string>, i: nat, j: nat)
    requires i < j < |items| && items[i].title == items[j].title
    ensures j in Unclaimed(items, names)
  {
    UnclaimedSpec(items, names);
  }

  /** An unpaired item's title may still be a local name, but only if an earlier item has it too. */
  lemma UnclaimedTitle(items: seq<RemoteItem>, names: seq<string>, i: nat)
    requires i < |items| && items[i].title !in names
    ensures i in Unclaimed(items, names)
  {
    UnclaimedSpec(items, names);
  }

  /** Item `i` is the one some local name pairs with: the first item of its title, whose title is listed. */
  predicate Claims(items: seq<RemoteItem>, names: seq<string>, i: nat)
    requires i < |items|
  {
    items[i].title in names && FirstMatch(items, items[i].title) == Some(i)
  }

  /** The marker list ends up holding exactly the items no local name claims. */
  lemma UnclaimedIffNotClaimed(items: seq<RemoteItem>, names: seq<string>, i: nat)
    requires i < |items|
    ensures i in Unclaimed(items, names) <==> !Claims(items, names, i)
  {
    UnclaimedSpec(items, names);
    if Claims(items, names, i) {
      var k :| 0 <= k < |names| && names[k] == items[i].title;
    }
  }

  /** When every item is claimed the marker list ends up empty: nothing is left over. */
  lemma AllClaimed(items: seq<RemoteItem>, names: seq<string>)
    requires forall i :: 0 <= i < |items| ==> Claims(items, names, i)
    ensures Unclaimed(items, names) == []
  {
    var s := Indices(|items|);
    forall j | 0 <= j < |s| ensures s[j] in Claimed(items, names) {
      assert s[j] == j && Claims(items, names, j);
      ClaimedMeans(items, names, j);
      var k :| 0 <= k < |names| && names[k] == items[j].title;
    }
    WithoutAll(s, Claimed(items, names));
  }

  /** A local entry that shares a title with a remote item is a directory exactly when the item is a folder. */
  predicate KindsAgree(fs: Tree, dir: Path, items: seq<RemoteItem>)
  {
    forall i :: 0 <= i < |items| && Join(dir, items[i].title) in fs ==>
      (fs[Join(dir, items[i].title)].DirStat? <==> IsFolder(items[i]))
  }

  /**
   * `dir` mirrors the remote listing: one entry per remote title and no
   * other, a directory exactly for each folder, and every file carrying the
   * remote checksum.
   */
  predicate Mirrors(fs: Tree, dir: Path, items: seq<RemoteItem>, md5: Md5)
  {
    Children(fs, dir) == Titles(items) &&
    forall i :: 0 <= i < |items| ==>
      Join(dir, items[i].title) in fs &&
      (fs[Join(dir, items[i].title)].DirStat? <==> IsFolder(items[i])) &&
      (fs[Join(dir, items[i].title)].FileStat? ==> ChecksumMatches(items[i], fs[Join(dir, items[i].title)].content, md5))
  }
}
