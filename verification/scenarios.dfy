/**
 * Worked examples on small concrete databases, stated as lemmas about the
 * step functions: a "Recycled" log and the statistics after it, a join followed by
 * a completion, a log deleted again (the points stay), and a three-user
 * leaderboard.
 */
module Scenarios {
  import opened Records
  import Ledger
  import ChallengeOps
  import UserStats
  import Leaderboard

  function Alice(points: int): User {
    User("u1", "Alice", "alice@example.org", "h", points, [], [], [])
  }

  function OneUser(): Db {
    Db(map["u1" := Alice(0)], [], map[], 0, 0)
  }

  function RecycledRequest(): Ledger.LogRequest {
    Ledger.LogRequest(Some("u1"), Some("Recycled"), Some(10), None, None, Some(20))
  }

  /** A user with no points submits a "Recycled" log of quantity 10 earning 20: 20 points, 5.0 CO2, 10 diverted. */
  lemma SubmitRecycledLog(now: int)
    ensures var db := Ledger.AddLog(OneUser(), RecycledRequest(), now).0;
      var stats := UserStats.GetUserStats(db, "u1");
      && db.users["u1"].ecoPoints == 20
      && stats.Ok? && stats.value.logCount == 1
      && stats.value.co2Saved == 5.0 && stats.value.wasteDiverted == 10
      && UserStats.Lookup(stats.value.wasteBreakdown, "Recycled") == Some(10)
  {
    var db := Ledger.AddLog(OneUser(), RecycledRequest(), now).0;
    var log := WasteLog(0, "u1", now, "Recycled", 10, None, None, Some(20));
    OwnLogsOfFreshDb(db, log);
    assert UserStats.Co2Saved([log]) == 5.0;
    assert UserStats.Diverted([log]) == 10;
    assert UserStats.Breakdown([log]) == [UserStats.Tally("Recycled", 10)];
  }

  /** After one accepted submission by the only user, that user owns exactly the new log. */
  lemma OwnLogsOfFreshDb(db: Db, log: WasteLog)
    requires db.logs == [log] && log.userId == "u1"
    ensures Ledger.LogsOf(db.logs, "u1") == [log]
  {
    assert [log][..0] == [];
  }

  /** The same log typed "plastic", as the logging form sends it, saves no CO2. */
  lemma SubmitFormLog(now: int)
    ensures var req := RecycledRequest().(wasteType := Some("plastic"));
      var db := Ledger.AddLog(OneUser(), req, now).0;
      var stats := UserStats.GetUserStats(db, "u1");
      stats.Ok? && stats.value.co2Saved == 0.0 && stats.value.wasteDiverted == 10
  {
    var req := RecycledRequest().(wasteType := Some("plastic"));
    var db := Ledger.AddLog(OneUser(), req, now).0;
    var log := WasteLog(0, "u1", now, "plastic", 10, None, None, Some(20));
    OwnLogsOfFreshDb(db, log);
    UserStats.FormLogsSaveNoCo2([log]);
    assert UserStats.Diverted([log]) == 10;
  }

  /** A quantity of 0 or an empty type is rejected; a negative quantity is stored. */
  lemma QuantityChecksTruthinessOnly(now: int)
    ensures Ledger.AddLog(OneUser(), RecycledRequest().(quantity := Some(0)), now).1 == BadRequest
    ensures Ledger.AddLog(OneUser(), RecycledRequest().(wasteType := Some("")), now).1 == BadRequest
    ensures var r := Ledger.AddLog(OneUser(), RecycledRequest().(quantity := Some(-3)), now).1;
      r.Ok? && r.value.quantity == -3
  {
  }

  /** Joining a challenge worth 50 and completing it: the title is a badge and the points rise by 50. */
  lemma JoinThenComplete()
    ensures var c := Challenge("Zero waste week", "", 0, 7, [], Some(50), [], true);
      var db0 := Db(map["u1" := Alice(0)], [], map[0 := c], 0, 1);
      var db1 := ChallengeOps.JoinChallenge(db0, 0, "u1").0;
      var db2 := ChallengeOps.CompleteChallenge(db1, 0, "u1").0;
      && db1.challenges[0].participants == ["u1"]
      && db2.users["u1"].badges == ["Zero waste week"]
      && db2.users["u1"].ecoPoints == 50
      && db2.users["u1"].joinedChallenges == [0]
  {
  }

  /** Deleting the log just submitted: no logs remain, but the 20 points stay. */
  lemma DeleteKeepsPoints(now: int)
    ensures var db1 := Ledger.AddLog(OneUser(), RecycledRequest(), now).0;
      var db2 := Ledger.DeleteLog(db1, 0).0;
      var stats := UserStats.GetUserStats(db2, "u1");
      && db2.users["u1"].ecoPoints == 20
      && db2.logs == []
      && stats.Ok? && stats.value.logCount == 0
  {
    Ledger.AddThenDeleteKeepsCredit(OneUser(), RecycledRequest(), now);
  }

  /** Three users with 30, 10 and 20 points are listed as 30, 20, 10. */
  lemma ThreeUserLeaderboard(period: string)
    ensures var r := Leaderboard.GetLeaderboard(
              [Alice(30).(id := "a"), Alice(10).(id := "b"), Alice(20).(id := "c")], period);
      |r| == 3 && r[0].ecoPoints == 30 && r[1].ecoPoints == 20 && r[2].ecoPoints == 10
  {
    var a, b, c := Alice(30).(id := "a"), Alice(10).(id := "b"), Alice(20).(id := "c");
    TopOfThree(a, b, c);
    var r := Leaderboard.GetLeaderboard([a, b, c], period);
    assert r[0] == Leaderboard.Project(a) && r[1] == Leaderboard.Project(c) && r[2] == Leaderboard.Project(b);
  }

  lemma TopOfThree(a: User, b: User, c: User)
    requires a.ecoPoints == 30 && b.ecoPoints == 10 && c.ecoPoints == 20
    ensures Leaderboard.Top([a, b, c]) == [a, c, b]
  {
    SortThree(a, b, c);
    assert Leaderboard.Min(Leaderboard.Limit, |[a, b, c]|) == 3;
    assert [a, c, b][..3] == [a, c, b];
  }

  lemma SortThree(a: User, b: User, c: User)
    requires a.ecoPoints == 30 && b.ecoPoints == 10 && c.ecoPoints == 20
    ensures Leaderboard.SortByPoints([a, b, c]) == [a, c, b]
  {
    assert [a, b, c][1..] == [b, c] && [b, c][1..] == [c] && [c][1..] == [];
    assert Leaderboard.SortByPoints([c]) == [c];
    assert Leaderboard.Insert(b, [c]) == [c, b] by {
      assert [c][1..] == [];
    }
    assert Leaderboard.Insert(a, [c, b]) == [a, c, b];
  }
}
