/**
 * The database as the controllers see it: one object whose collections are
 * updated in place by the log and challenge controllers. Each method performs
 * the same updates, in the same order, as the controller it models, and its
 * contract ties the new state to the step functions of `Ledger` and
 * `ChallengeOps`.
 *
 * Beside the real collections the store keeps a ghost account of every credit
 * ever granted. Its invariant is the accounting rule the code actually keeps:
 * a user's points are its initial points plus every credit granted since,
 * including the credits of logs deleted later (deletion does not reverse them)
 * and one credit per completion call on an existing challenge by an existing
 * user (none on a 404, none when the user is missing, though that call still
 * succeeds).
 */
module Store {
  import opened Records
  import Ledger
  import ChallengeOps

  /** One grant of points: for a stored log, or for a completion of a challenge. */
  datatype Credit =
    | LogCredit(user: UserId, log: LogId, amount: int)
    | RewardCredit(user: UserId, challenge: ChallengeId, amount: int)

  /** The total of the credits in `history` granted to `u`. */
  function Credited(history: seq<Credit>, u: UserId): int {
    if history == [] then 0
    else
      var last := history[|history| - 1];
      Credited(history[..|history| - 1], u) + (if last.user == u then last.amount else 0)
  }

  /**
   * The accounting invariant over a database, the points each user had when
   * the store was opened, and the credits granted since: the database is
   * well-formed, every user's points are its opening points plus its credits,
   * and every stored log of an existing owner has been credited.
   */
  ghost predicate Accounts(db: Db, base: map<UserId, int>, history: seq<Credit>) {
    && WellFormed(db)
    && base.Keys == db.users.Keys
    && (forall u :: u in db.users ==> db.users[u].ecoPoints == base[u] + Credited(history, u))
    && (forall l :: l in db.logs && l.userId in db.users ==>
          LogCredit(l.userId, l.id, OrZero(l.ecoPointsEarned)) in history)
  }

  /** The credits an addLog call grants: one, when the request is accepted and its owner exists. */
  function AddLogCredits(db: Db, req: Ledger.LogRequest): seq<Credit> {
    if Ledger.Accepts(req) && req.userId.value in db.users
    then [LogCredit(req.userId.value, db.nextLogId, Ledger.Earned(req))]
    else []
  }

  /** The credits a completeChallenge call grants: one per call, when challenge and user exist. */
  function CompleteCredits(db: Db, cid: ChallengeId, uid: UserId): seq<Credit> {
    if cid in db.challenges && uid in db.users
    then [RewardCredit(uid, cid, ChallengeOps.Reward(db.challenges[cid]))]
    else []
  }

  lemma CreditedSnoc(history: seq<Credit>, c: Credit, u: UserId)
    ensures Credited(history + [c], u) == Credited(history, u) + (if c.user == u then c.amount else 0)
  {
    assert (history + [c])[..|history|] == history;
  }

  lemma AddLogKeepsAccounts(db: Db, base: map<UserId, int>, history: seq<Credit>, req: Ledger.LogRequest, now: int)
    requires Accounts(db, base, history)
    ensures Accounts(Ledger.AddLog(db, req, now).0, base, history + AddLogCredits(db, req))
  {
    Ledger.AddLogKeepsWellFormed(db, req, now);
    if Ledger.Accepts(req) {
      var db' := Ledger.AddLog(db, req, now).0;
      var h' := history + AddLogCredits(db, req);
      var owner := req.userId.value;
      forall u | u in db'.users ensures db'.users[u].ecoPoints == base[u] + Credited(h', u) {
        if AddLogCredits(db, req) != [] {
          CreditedSnoc(history, AddLogCredits(db, req)[0], u);
        } else {
          assert h' == history;
        }
        if u != owner {
          assert db'.users[u] == (db'.users - {owner})[u] == db.users[u];
        } else {
          assert db'.users[u].ecoPoints == db.users[u].ecoPoints + Ledger.Earned(req);
        }
      }
      forall l | l in db'.logs && l.userId in db'.users
        ensures LogCredit(l.userId, l.id, OrZero(l.ecoPointsEarned)) in h'
      {
        if l !in db.logs {
          assert l == db'.logs[|db.logs|];
        }
      }
    } else {
      assert history + AddLogCredits(db, req) == history;
    }
  }

  lemma DeleteLogKeepsAccounts(db: Db, base: map<UserId, int>, history: seq<Credit>, id: LogId)
    requires Accounts(db, base, history)
    ensures Accounts(Ledger.DeleteLog(db, id).0, base, history)
  {
    Ledger.DeleteLogKeepsWellFormed(db, id);
    var db' := Ledger.DeleteLog(db, id).0;
    if db' != db {
      forall l | l in db'.logs ensures l in db.logs {
        assert l in multiset(db'.logs);
      }
      forall u | u in db'.users ensures db'.users[u].ecoPoints == db.users[u].ecoPoints {
        assert PointsTable(db'.users)[u] == PointsTable(db.users)[u];
      }
    }
  }

  lemma CreateChallengeKeepsAccounts(db: Db, base: map<UserId, int>, history: seq<Credit>, req: ChallengeOps.ChallengeRequest)
    requires Accounts(db, base, history)
    ensures Accounts(ChallengeOps.CreateChallenge(db, req).0, base, history)
  {
  }

  lemma JoinKeepsAccounts(db: Db, base: map<UserId, int>, history: seq<Credit>, cid: ChallengeId, uid: UserId)
    requires Accounts(db, base, history)
    ensures Accounts(ChallengeOps.JoinChallenge(db, cid, uid).0, base, history)
  {
    var db' := ChallengeOps.JoinChallenge(db, cid, uid).0;
    forall u | u in db'.users ensures db'.users[u].ecoPoints == db.users[u].ecoPoints {
      if u != uid {
        assert db'.users[u] == (db'.users - {uid})[u] == db.users[u];
      }
    }
  }

  lemma CompleteKeepsAccounts(db: Db, base: map<UserId, int>, history: seq<Credit>, cid: ChallengeId, uid: UserId)
    requires Accounts(db, base, history)
    ensures Accounts(ChallengeOps.CompleteChallenge(db, cid, uid).0, base, history + CompleteCredits(db, cid, uid))
  {
    var db' := ChallengeOps.CompleteChallenge(db, cid, uid).0;
    var h' := history + CompleteCredits(db, cid, uid);
    forall u | u in db'.users ensures db'.users[u].ecoPoints == base[u] + Credited(h', u) {
      if CompleteCredits(db, cid, uid) != [] {
        CreditedSnoc(history, CompleteCredits(db, cid, uid)[0], u);
      } else {
        assert h' == history;
      }
      if u != uid {
        assert db'.users[u] == (db'.users - {uid})[u] == db.users[u];
      }
    }
  }

  class Store {
    var users: map<UserId, User>
    var logs: seq<WasteLog>
    var challenges: map<ChallengeId, Challenge>
    var nextLogId: LogId
    var nextChallengeId: ChallengeId

    /** Every user's points when the store was opened. */
    ghost var base: map<UserId, int>
    /** Every credit granted since, in order. */
    ghost var history: seq<Credit>

    function State(): Db
      reads this
    {
      Db(users, logs, challenges, nextLogId, nextChallengeId)
    }

    ghost predicate Valid()
      reads this
    {
      Accounts(State(), base, history)
    }

    /** A database holding only the registered accounts, none of which owns a log yet. */
    constructor (accounts: map<UserId, User>)
      requires forall u :: u in accounts ==> accounts[u].id == u && accounts[u].logs == []
      ensures Valid()
      ensures State() == Db(accounts, [], map[], 0, 0)
      ensures base == PointsTable(accounts) && history == []
    {
      users, logs, challenges := accounts, [], map[];
      nextLogId, nextChallengeId := 0, 0;
      base := PointsTable(accounts);
      history := [];
    }

    /** addLog: validate, save the log, then `$push` its id and `$inc` the owner's points. */
    method AddLog(req: Ledger.LogRequest, now: int) returns (r: Response<WasteLog>)
      requires Valid()
      modifies this
      ensures Valid()
      ensures (State(), r) == Ledger.AddLog(old(State()), req, now)
      ensures base == old(base) && history == old(history) + AddLogCredits(old(State()), req)
    {
      AddLogKeepsAccounts(State(), base, history, req, now);
      Ledger.AddLogKeepsWellFormed(State(), req, now);
      if !Ledger.Accepts(req) {
        return BadRequest;
      }
      history := history + AddLogCredits(State(), req);
      var log := Ledger.NewLog(nextLogId, req, now);
      logs := logs + [log];
      nextLogId := nextLogId + 1;
      users := Ledger.CreditOwner(users, log.userId, log.id, Ledger.Earned(req));
      r := Ok(log);
    }

    /** deleteLog: delete the log, then `$pull` its id from the owner; no points are taken back. */
    method DeleteLog(id: LogId) returns (r: Response<WasteLog>)
      requires Valid()
      modifies this
      ensures Valid()
      ensures (State(), r) == Ledger.DeleteLog(old(State()), id)
      ensures base == old(base) && history == old(history)
    {
      DeleteLogKeepsAccounts(State(), base, history, id);
      var found := Ledger.IndexOfLog(logs, id);
      if found.None? {
        return NotFound;
      }
      var log := logs[found.value];
      logs := Ledger.RemoveAt(logs, found.value);
      users := Ledger.DetachLog(users, log.userId, id);
      r := Ok(log);
    }

    /** createChallenge: save a new challenge with the request's fields. */
    method CreateChallenge(req: ChallengeOps.ChallengeRequest) returns (r: Response<ChallengeId>)
      requires Valid()
      modifies this
      ensures Valid()
      ensures (State(), r) == ChallengeOps.CreateChallenge(old(State()), req)
      ensures base == old(base) && history == old(history)
    {
      CreateChallengeKeepsAccounts(State(), base, history, req);
      var id := nextChallengeId;
      challenges := challenges[id := Challenge(req.title, req.description, req.startDate, req.endDate,
                                               req.tasks, req.rewardPoints, [], req.isActive)];
      nextChallengeId := id + 1;
      r := Ok(id);
    }

    /** joinChallenge: `$addToSet` on the participants, then on the user's joined challenges. */
    method JoinChallenge(cid: ChallengeId, uid: UserId) returns (r: Response<Challenge>)
      requires Valid()
      modifies this
      ensures Valid()
      ensures (State(), r) == ChallengeOps.JoinChallenge(old(State()), cid, uid)
      ensures base == old(base) && history == old(history)
    {
      JoinKeepsAccounts(State(), base, history, cid, uid);
      if cid !in challenges {
        return NotFound;
      }
      var c := challenges[cid];
      challenges := challenges[cid := c.(participants := AddToSet(c.participants, uid))];
      users := ChallengeOps.RecordJoin(users, uid, cid);
      r := Ok(challenges[cid]);
    }

    /** completeChallenge: `$addToSet` the title to the badges and `$inc` the points, on every call that finds the challenge and the user. */
    method CompleteChallenge(cid: ChallengeId, uid: UserId) returns (r: Response<()>)
      requires Valid()
      modifies this
      ensures Valid()
      ensures (State(), r) == ChallengeOps.CompleteChallenge(old(State()), cid, uid)
      ensures base == old(base) && history == old(history) + CompleteCredits(old(State()), cid, uid)
    {
      CompleteKeepsAccounts(State(), base, history, cid, uid);
      if cid !in challenges {
        return NotFound;
      }
      var c := challenges[cid];
      history := history + CompleteCredits(State(), cid, uid);
      users := ChallengeOps.Award(users, uid, c.title, ChallengeOps.Reward(c));
      r := Ok(());
    }
  }
}
