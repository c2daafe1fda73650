/**
 * The leaderboard query: every user, ordered by points from highest to
 * lowest, cut to the first twenty, each reduced to its id, name, points and
 * badges. The users are given as the collection's listing in natural order.
 */
module Leaderboard {
  import opened Records

  /** The size of the leaderboard. */
  const Limit: nat := 20

  /** A leaderboard row: the selected fields plus the id, which a selection always keeps. */
  datatype Entry = Entry(id: UserId, name: string, ecoPoints: int, badges: seq<string>)

  function Project(u: User): Entry {
    Entry(u.id, u.name, u.ecoPoints, u.badges)
  }

  function Min(a: nat, b: nat): nat {
    if a <= b then a else b
  }

  /** Points never increase along the sequence. */
  predicate DescendingPoints(s: seq<User>) {
    forall i, j :: 0 <= i < j < |s| ==> s[i].ecoPoints >= s[j].ecoPoints
  }

  /** No two listed users share an id, as in the users collection. */
  predicate UniqueIds(s: seq<User>) {
    forall i, j :: 0 <= i < j < |s| ==> s[i].id != s[j].id
  }

  /** Places `u` before the first user with no more points than it. */
  function Insert(u: User, s: seq<User>): (r: seq<User>)
    ensures multiset(r) == multiset(s) + multiset{u}
    ensures |r| == |s| + 1
  {
    if s == [] then [u]
    else if u.ecoPoints >= s[0].ecoPoints then [u] + s
    else
      assert s == [s[0]] + s[1..];
      [s[0]] + Insert(u, s[1..])
  }

  /** A user with at least the points of every user of a descending sequence can head it. */
  lemma ConsDescending(h: User, t: seq<User>)
    requires DescendingPoints(t)
    requires forall x :: x in t ==> x.ecoPoints <= h.ecoPoints
    ensures DescendingPoints([h] + t)
  {
    var r := [h] + t;
    forall i, j | 0 <= i < j < |r| ensures r[i].ecoPoints >= r[j].ecoPoints {
      assert r[j] == t[j - 1] && t[j - 1] in t;
      if i > 0 {
        assert r[i] == t[i - 1];
      }
    }
  }

  /** Every user of `Insert(u, s)` is `u` or a user of `s`. */
  lemma InsertDrawsFrom(u: User, s: seq<User>, x: User)
    requires x in Insert(u, s)
    ensures x == u || x in s
  {
    assert x in multiset(Insert(u, s));
  }

  lemma {:induction false} InsertKeepsDescending(u: User, s: seq<User>)
    requires DescendingPoints(s)
    ensures DescendingPoints(Insert(u, s))
  {
    if s != [] && u.ecoPoints < s[0].ecoPoints {
      var rest := Insert(u, s[1..]);
      InsertKeepsDescending(u, s[1..]);
      forall x | x in rest ensures x.ecoPoints <= s[0].ecoPoints {
        InsertDrawsFrom(u, s[1..], x);
        if x != u {
          var k :| 0 <= k < |s[1..]| && s[1..][k] == x;
          assert s[k + 1] == x;
        }
      }
      ConsDescending(s[0], rest);
    }
  }

  /** The whole listing, ordered by points from highest to lowest. */
  function SortByPoints(s: seq<User>): (r: seq<User>)
    ensures multiset(r) == multiset(s)
    ensures |r| == |s|
    ensures DescendingPoints(r)
  {
    if s == [] then []
    else
      assert s == [s[0]] + s[1..];
      InsertKeepsDescending(s[0], SortByPoints(s[1..]));
      Insert(s[0], SortByPoints(s[1..]))
  }

  /** The users the query returns, before projection: the first `Limit` of the sorted listing. */
  function Top(listing: seq<User>): (top: seq<User>)
    ensures |top| == Min(Limit, |listing|)
    ensures DescendingPoints(top)
    ensures multiset(top) <= multiset(listing)
  {
    var sorted := SortByPoints(listing);
    var k := Min(Limit, |listing|);
    assert sorted == sorted[..k] + sorted[k..];
    sorted[..k]
  }

  lemma TakeDropMultiset(s: seq<User>, k: nat)
    requires k <= |s|
    ensures multiset(s) - multiset(s[..k]) == multiset(s[k..])
  {
    assert s == s[..k] + s[k..];
  }

  lemma DescendingTailBelow(s: seq<User>, k: nat)
    requires DescendingPoints(s) && 0 < k <= |s|
    ensures forall u :: u in multiset(s[k..]) ==> u.ecoPoints <= s[k - 1].ecoPoints
  {
    forall u | u in multiset(s[k..]) ensures u.ecoPoints <= s[k - 1].ecoPoints {
      var j :| 0 <= j < |s[k..]| && s[k..][j] == u;
      assert s[k + j] == u;
    }
  }

  /** No user left out of `Top` has more points than the last one kept. */
  lemma LeftOutHaveNoMorePoints(listing: seq<User>)
    ensures var top := Top(listing);
      forall u :: u in multiset(listing) - multiset(top) ==> 0 < |top| && u.ecoPoints <= top[|top| - 1].ecoPoints
  {
    var sorted := SortByPoints(listing);
    var k := Min(Limit, |listing|);
    TakeDropMultiset(sorted, k);
    if k > 0 {
      DescendingTailBelow(sorted, k);
    }
  }

  /**
   * getLeaderboard. The reply has min(20, number of users) rows in
   * non-increasing points order, and row i is the projection of the i-th user
   * of `Top`. The period the client asks for plays no part.
   */
  function GetLeaderboard(listing: seq<User>, period: string): (r: seq<Entry>)
    ensures |r| == Min(Limit, |listing|)
    ensures forall i :: 0 <= i < |r| ==> r[i] == Project(Top(listing)[i])
    ensures forall i, j :: 0 <= i < j < |r| ==> r[i].ecoPoints >= r[j].ecoPoints
  {
    var top := Top(listing);
    seq(|top|, i requires 0 <= i < |top| => Project(top[i]))
  }

  /** Every period yields the same list. */
  lemma PeriodIgnored(listing: seq<User>, p: string, q: string)
    ensures GetLeaderboard(listing, p) == GetLeaderboard(listing, q)
  {
    var r, r' := GetLeaderboard(listing, p), GetLeaderboard(listing, q);
    assert forall i :: 0 <= i < |r| ==> r[i] == r'[i];
  }

  lemma {:induction false} UniqueIdsCountOnce(s: seq<User>, x: User)
    requires UniqueIds(s)
    ensures multiset(s)[x] <= 1
  {
    if s != [] {
      assert s == [s[0]] + s[1..];
      UniqueIdsCountOnce(s[1..], x);
      if x == s[0] {
        forall k | 0 <= k < |s[1..]| ensures s[1..][k] != x {
          assert s[1..][k] == s[k + 1];
        }
      }
    }
  }

  lemma RepeatCountsTwice(t: seq<User>, i: nat, j: nat)
    requires i < j < |t|
    ensures t[i] == t[j] ==> multiset(t)[t[i]] >= 2
  {
    assert t == t[..j] + t[j..];
    assert t[i] in t[..j] && t[j] in t[j..];
  }

  /**
   * When the listing is the users collection (ids unique), every row is the
   * projection of a listed user and no user appears twice.
   */
  lemma LeaderboardRowsAreDistinctUsers(listing: seq<User>, period: string)
    requires UniqueIds(listing)
    ensures var r := GetLeaderboard(listing, period);
      && (forall i :: 0 <= i < |r| ==> exists u :: u in listing && r[i] == Project(u))
      && (forall i, j :: 0 <= i < j < |r| ==> r[i].id != r[j].id)
  {
    var top := Top(listing);
    forall i | 0 <= i < |top| ensures top[i] in listing {
      assert top[i] in multiset(top);
    }
    forall i, j | 0 <= i < j < |top| ensures top[i].id != top[j].id {
      RepeatCountsTwice(top, i, j);
      UniqueIdsCountOnce(listing, top[i]);
      assert top[i] != top[j];
      assert top[i] in multiset(top) && top[j] in multiset(top);
      var p :| 0 <= p < |listing| && listing[p] == top[i];
      var q :| 0 <= q < |listing| && listing[q] == top[j];
      assert p != q;
    }
  }
}
