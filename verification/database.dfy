/**
 * The stored tables the core reads and writes: precincts, recent searches,
 * favorites and saved places, with the start-up seed check and the
 * twenty-entry cap on recent searches.
 */
module Database {
  import opened Wrappers
  import opened Records
  import opened Precincts

  /** The most recent searches kept. */
  const MaxRecentSearches: nat := 20

  /** Recent searches are ordered by timestamp, then by id (the order of the timestamp index). */
  predicate Older(a: RecentSearch, b: RecentSearch) {
    a.timestamp < b.timestamp || (a.timestamp == b.timestamp && a.searchId < b.searchId)
  }

  predicate OldestFirst(s: seq<RecentSearch>) {
    forall i, j :: 0 <= i < j < |s| ==> Older(s[i], s[j])
  }

  /** The table with one more search, in index order. */
  function InsertByAge(s: seq<RecentSearch>, x: RecentSearch): (r: seq<RecentSearch>)
    ensures |r| == |s| + 1
  {
    if |s| == 0 then [x]
    else if Older(x, s[0]) then [x] + s
    else [s[0]] + InsertByAge(s[1..], x)
  }

  /** Insertion adds exactly the new entry. */
  lemma {:induction false} InsertByAgeCount(s: seq<RecentSearch>, x: RecentSearch)
    ensures multiset(InsertByAge(s, x)) == multiset(s) + multiset{x}
  {
    if |s| > 0 && !Older(x, s[0]) {
      InsertByAgeCount(s[1..], x);
      assert s == [s[0]] + s[1..];
    }
  }

  /** An entry older than every stored entry and than the new one is older than everything after insertion. */
  lemma OlderThanInserted(a: RecentSearch, s: seq<RecentSearch>, x: RecentSearch)
    requires Older(a, x)
    requires forall k :: 0 <= k < |s| ==> Older(a, s[k])
    ensures forall k :: 0 <= k < |InsertByAge(s, x)| ==> Older(a, InsertByAge(s, x)[k])
  {
    var r := InsertByAge(s, x);
    InsertByAgeCount(s, x);
    forall k | 0 <= k < |r| ensures Older(a, r[k]) {
      var y := r[k];
      assert y in multiset(r);
      if y != x {
        assert y in multiset(s);
        assert y in s;
      }
    }
  }

  /** Putting an entry older than all of an ordered table in front keeps it ordered. */
  lemma PrependOldest(a: RecentSearch, r: seq<RecentSearch>)
    requires OldestFirst(r)
    requires forall k :: 0 <= k < |r| ==> Older(a, r[k])
    ensures OldestFirst([a] + r)
  {
    var t := [a] + r;
    forall i, j | 0 <= i < j < |t| ensures Older(t[i], t[j]) {
      assert t[j] == r[j - 1];
      if i > 0 {
        assert t[i] == r[i - 1];
      }
    }
  }

  /** Insertion keeps the order and adds exactly the new entry. */
  lemma {:induction false} InsertByAgeOrdered(s: seq<RecentSearch>, x: RecentSearch)
    requires OldestFirst(s)
    requires forall k :: 0 <= k < |s| ==> s[k].searchId != x.searchId
    ensures OldestFirst(InsertByAge(s, x))
    ensures multiset(InsertByAge(s, x)) == multiset(s) + multiset{x}
  {
    InsertByAgeCount(s, x);
    if |s| > 0 {
      if Older(x, s[0]) {
        PrependOldest(x, s);
      } else {
        var rest := s[1..];
        assert forall k :: 0 <= k < |rest| ==> rest[k] == s[k + 1];
        InsertByAgeOrdered(rest, x);
        OlderThanInserted(s[0], rest, x);
        PrependOldest(s[0], InsertByAge(rest, x));
      }
    }
  }

  /** The twenty newest entries: the tail of the ordered table. */
  function KeepNewest(s: seq<RecentSearch>): (r: seq<RecentSearch>)
    ensures |r| <= MaxRecentSearches
  {
    if |s| > MaxRecentSearches then s[|s| - MaxRecentSearches..] else s
  }

  /** In an ordered table, an entry before position d is older than every entry from d on. */
  lemma DroppedAreOlder(s: seq<RecentSearch>, d: nat, x: RecentSearch, y: RecentSearch)
    requires OldestFirst(s) && d <= |s|
    requires x in s && x !in s[d..] && y in s[d..]
    ensures Older(x, y)
  {
    var i :| 0 <= i < |s| && s[i] == x;
    var j :| 0 <= j < |s| - d && s[d..][j] == y;
    assert forall k :: d <= k < |s| ==> s[k] == s[d..][k - d];
    assert i < d;
    assert s[d + j] == y;
  }

  /**
   * After the cap the table holds at most twenty entries, and every entry
   * deleted is older than every entry kept.
   */
  lemma KeepNewestKeepsNewest(s: seq<RecentSearch>)
    requires OldestFirst(s)
    ensures OldestFirst(KeepNewest(s))
    ensures |KeepNewest(s)| == if |s| > MaxRecentSearches then MaxRecentSearches else |s|
    ensures forall x :: x in KeepNewest(s) ==> x in s
    ensures forall x, y :: x in s && x !in KeepNewest(s) && y in KeepNewest(s) ==> Older(x, y)
  {
    var r := KeepNewest(s);
    var d := |s| - |r|;
    assert r == s[d..];
    forall x, y | x in s && x !in r && y in r ensures Older(x, y) {
      DroppedAreOlder(s, d, x, y);
    }
  }

  /** A search newer than every stored one goes at the end. */
  lemma {:induction false} NewestAppended(s: seq<RecentSearch>, x: RecentSearch)
    requires forall k :: 0 <= k < |s| ==> Older(s[k], x)
    ensures InsertByAge(s, x) == s + [x]
  {
    if |s| > 0 {
      var rest := s[1..];
      assert !Older(x, s[0]);
      NewestAppended(rest, x);
      assert s + [x] == [s[0]] + (rest + [x]);
    }
  }

  /** A search that is the newest by timestamp always survives the cap, as the last entry. */
  lemma NewestSearchKept(s: seq<RecentSearch>, x: RecentSearch)
    requires forall k :: 0 <= k < |s| ==> Older(s[k], x)
    ensures InsertByAge(s, x) == s + [x]
    ensures KeepNewest(InsertByAge(s, x))[|KeepNewest(InsertByAge(s, x))| - 1] == x
  {
    NewestAppended(s, x);
  }

  /** Ids below a bound stay below it after an insertion and the cap. */
  lemma CappedIdsBelow(s: seq<RecentSearch>, x: RecentSearch, n: int)
    requires forall k :: 0 <= k < |s| ==> s[k].searchId < n
    requires x.searchId < n
    ensures forall k :: 0 <= k < |KeepNewest(InsertByAge(s, x))| ==> KeepNewest(InsertByAge(s, x))[k].searchId < n
  {
    var all := InsertByAge(s, x);
    InsertByAgeCount(s, x);
    var r := KeepNewest(all);
    var d := |all| - |r|;
    assert r == all[d..];
    forall k | 0 <= k < |r| ensures r[k].searchId < n {
      var y := all[d + k];
      assert r[k] == y;
      assert y in multiset(all);
      if y != x {
        assert y in multiset(s);
        assert y in s;
      }
    }
  }

  class Database {
    var precincts: seq<Precinct>
    var recentSearches: seq<RecentSearch>
    var favorites: seq<Favorite>
    var savedPlaces: seq<SavedPlace>
    /** The next id the auto-incremented recent-search key hands out. */
    var nextSearchId: nat

    ghost predicate Valid()
      reads this
    {
      && OldestFirst(recentSearches)
      && forall k :: 0 <= k < |recentSearches| ==> recentSearches[k].searchId < nextSearchId
    }

    constructor ()
      ensures Valid()
      ensures precincts == [] && recentSearches == [] && favorites == [] && savedPlaces == []
    {
      precincts, recentSearches, favorites, savedPlaces := [], [], [], [];
      nextSearchId := 0;
    }

    /**
     * `initializeDatabase`: a non-empty precinct table with a valid seed is
     * kept as it is. A non-empty table with an invalid seed clears the
     * precincts and all user data (recent searches, favorites, saved
     * places) before the seed is written again; an empty table is seeded
     * without touching the other tables.
     */
    method Initialize(raws: seq<RawPrecinct>, boundaries: Boundaries, locations: seq<StationLocation>)
      returns (kept: bool)
      requires Valid()
      modifies this
      ensures Valid()
      ensures kept == (|old(precincts)| > 0 && HasValidSeed(old(precincts)))
      ensures kept ==> precincts == old(precincts)
      ensures !kept ==> precincts == SeededPrecincts(raws, boundaries, locations)
      ensures |old(precincts)| > 0 && !kept ==> recentSearches == [] && favorites == [] && savedPlaces == []
      ensures |old(precincts)| == 0 || kept ==>
        recentSearches == old(recentSearches) && favorites == old(favorites) && savedPlaces == old(savedPlaces)
      ensures nextSearchId == old(nextSearchId)
    {
      if |precincts| > 0 {
        if HasValidSeed(precincts) {
          return true;
        }
        precincts, recentSearches, favorites, savedPlaces := [], [], [], [];
      }
      kept := false;
      var seeded := SeedPrecincts(raws, boundaries, locations);
      precincts := seeded;
    }

    /**
     * `addRecentSearch`: the search is stored with the current time and a
     * fresh id, then everything beyond the twenty newest is deleted.
     */
    method AddRecentSearch(queryText: string, displayAddress: string, latitude: real, longitude: real, now: int)
      requires Valid()
      modifies this
      ensures Valid()
      ensures recentSearches == KeepNewest(InsertByAge(old(recentSearches),
        RecentSearch(old(nextSearchId), queryText, displayAddress, latitude, longitude, now)))
      ensures nextSearchId == old(nextSearchId) + 1
      ensures |recentSearches| == if |old(recentSearches)| + 1 > MaxRecentSearches then MaxRecentSearches else |old(recentSearches)| + 1
      ensures precincts == old(precincts) && favorites == old(favorites) && savedPlaces == old(savedPlaces)
    {
      var entry := RecentSearch(nextSearchId, queryText, displayAddress, latitude, longitude, now);
      InsertByAgeOrdered(recentSearches, entry);
      var all := InsertByAge(recentSearches, entry);
      KeepNewestKeepsNewest(all);
      CappedIdsBelow(recentSearches, entry, nextSearchId + 1);
      recentSearches := KeepNewest(all);
      nextSearchId := nextSearchId + 1;
    }
  }
}
