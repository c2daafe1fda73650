/**
 * The challenge controller: creating a challenge, joining it (a set-insert on
 * both sides) and completing it (a badge set-insert plus a points credit that
 * is granted again on every call that finds the challenge and the user).
 */
module ChallengeOps {
  import opened Records

  /** The body of a challenge creation; stored as given, with no participants. */
  datatype ChallengeRequest = ChallengeRequest(
    title: string,
    description: string,
    startDate: int,
    endDate: int,
    tasks: seq<string>,
    rewardPoints: Option<int>,
    isActive: bool)

  /**
   * createChallenge. Always succeeds: a challenge carrying exactly the request's
   * fields and no participants is stored under a fresh id; nothing else changes.
   */
  function CreateChallenge(db: Db, req: ChallengeRequest): (out: (Db, Response<ChallengeId>))
    ensures var (db', r) := out;
      && r == Ok(db.nextChallengeId)
      && (WellFormed(db) ==> r.value !in db.challenges)
      && db'.challenges.Keys == db.challenges.Keys + {r.value}
      && db'.challenges - {r.value} == db.challenges - {r.value}
      && db'.users == db.users && db'.logs == db.logs
      && db'.nextLogId == db.nextLogId && db'.nextChallengeId == db.nextChallengeId + 1
      && (var c := db'.challenges[r.value];
          && c.title == req.title && c.description == req.description
          && c.startDate == req.startDate && c.endDate == req.endDate
          && c.tasks == req.tasks && c.rewardPoints == req.rewardPoints
          && c.isActive == req.isActive && c.participants == [])
    ensures WellFormed(db) ==> WellFormed(out.0)
  {
    var id := db.nextChallengeId;
    var c := Challenge(req.title, req.description, req.startDate, req.endDate, req.tasks,
                       req.rewardPoints, [], req.isActive);
    (db.(challenges := db.challenges[id := c], nextChallengeId := id + 1), Ok(id))
  }

  /** `User.findByIdAndUpdate(uid, {$addToSet: {joinedChallenges: cid}})`. */
  function RecordJoin(users: map<UserId, User>, uid: UserId, cid: ChallengeId): (r: map<UserId, User>)
    ensures r.Keys == users.Keys
    ensures r - {uid} == users - {uid}
    ensures uid in users ==>
      && r[uid] == users[uid].(joinedChallenges := r[uid].joinedChallenges)
      && r[uid].joinedChallenges == AddToSet(users[uid].joinedChallenges, cid)
  {
    if uid in users
    then users[uid := users[uid].(joinedChallenges := AddToSet(users[uid].joinedChallenges, cid))]
    else users
  }

  /**
   * joinChallenge. An unknown challenge answers 404 and changes nothing.
   * Otherwise `uid` is set-inserted into the challenge's participants (no other
   * challenge changes) and `cid` into the user's joined challenges, when that
   * user exists; the reply carries the updated challenge. Logs never change.
   */
  function JoinChallenge(db: Db, cid: ChallengeId, uid: UserId): (out: (Db, Response<Challenge>))
    ensures cid !in db.challenges ==> out == (db, NotFound)
    ensures cid in db.challenges ==>
      var (db', r) := out;
      && db'.challenges.Keys == db.challenges.Keys
      && r == Ok(db'.challenges[cid])
      && db'.challenges - {cid} == db.challenges - {cid}
      && r.value == db.challenges[cid].(participants := r.value.participants)
      && r.value.participants == AddToSet(db.challenges[cid].participants, uid)
      && db'.users == RecordJoin(db.users, uid, cid)
      && db'.logs == db.logs
      && db'.nextLogId == db.nextLogId && db'.nextChallengeId == db.nextChallengeId
    ensures WellFormed(db) ==> WellFormed(out.0)
  {
    if cid !in db.challenges then (db, NotFound)
    else
      var c := db.challenges[cid];
      var c' := c.(participants := AddToSet(c.participants, uid));
      (db.(challenges := db.challenges[cid := c'], users := RecordJoin(db.users, uid, cid)), Ok(c'))
  }

  /** Joining a second time with the same ids changes nothing further. */
  lemma JoinTwiceIsJoinOnce(db: Db, cid: ChallengeId, uid: UserId)
    ensures var once := JoinChallenge(db, cid, uid);
            JoinChallenge(once.0, cid, uid) == once
  {
    if cid in db.challenges {
      var once := JoinChallenge(db, cid, uid).0;
      var c := once.challenges[cid];
      AddToSetIdempotent(db.challenges[cid].participants, uid);
      assert once.challenges[cid := c] == once.challenges;
      if uid in db.users {
        AddToSetIdempotent(db.users[uid].joinedChallenges, cid);
        assert RecordJoin(once.users, uid, cid) == once.users;
      }
    }
  }

  /** The reward a completion credits: `rewardPoints || 0`. */
  function Reward(c: Challenge): int {
    OrZero(c.rewardPoints)
  }

  /** `User.findByIdAndUpdate(uid, {$addToSet: {badges: title}, $inc: {ecoPoints: amount}})`. */
  function Award(users: map<UserId, User>, uid: UserId, title: string, amount: int): (r: map<UserId, User>)
    ensures r.Keys == users.Keys
    ensures r - {uid} == users - {uid}
    ensures uid in users ==>
      && r[uid] == users[uid].(badges := r[uid].badges, ecoPoints := r[uid].ecoPoints)
      && r[uid].ecoPoints == users[uid].ecoPoints + amount
      && r[uid].badges == AddToSet(users[uid].badges, title)
  {
    if uid in users
    then users[uid := users[uid].(badges := AddToSet(users[uid].badges, title),
                                  ecoPoints := users[uid].ecoPoints + amount)]
    else users
  }

  /**
   * completeChallenge. An unknown challenge answers 404 and changes nothing.
   * Otherwise the user, if it exists, gets the challenge title as a badge
   * (without duplicating it) and `Reward` points; being a participant is not
   * required, and neither the challenge nor `joinedChallenges` changes.
   */
  function CompleteChallenge(db: Db, cid: ChallengeId, uid: UserId): (out: (Db, Response<()>))
    ensures cid !in db.challenges ==> out == (db, NotFound)
    ensures cid in db.challenges ==>
      var (db', r) := out;
      && r == Ok(())
      && db'.users == Award(db.users, uid, db.challenges[cid].title, Reward(db.challenges[cid]))
      && db'.challenges == db.challenges && db'.logs == db.logs
      && db'.nextLogId == db.nextLogId && db'.nextChallengeId == db.nextChallengeId
    ensures WellFormed(db) ==> WellFormed(out.0)
  {
    if cid !in db.challenges then (db, NotFound)
    else
      var c := db.challenges[cid];
      (db.(users := Award(db.users, uid, c.title, Reward(c))), Ok(()))
  }

  /**
   * Completing the same challenge twice credits its reward twice, while the
   * badges are those of a single completion.
   */
  lemma CompleteTwiceCreditsTwice(db: Db, cid: ChallengeId, uid: UserId)
    requires cid in db.challenges && uid in db.users
    ensures
      var once := CompleteChallenge(db, cid, uid).0;
      var twice := CompleteChallenge(once, cid, uid).0;
      && twice.users[uid].ecoPoints == db.users[uid].ecoPoints + 2 * Reward(db.challenges[cid])
      && twice.users[uid].badges == once.users[uid].badges
  {
    var c := db.challenges[cid];
    var once := CompleteChallenge(db, cid, uid).0;
    AddToSetIdempotent(db.users[uid].badges, c.title);
    assert once.users[uid].badges == AddToSet(db.users[uid].badges, c.title);
  }
}
