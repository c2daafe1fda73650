/**
 * The waste-log controller: storing a log and crediting its owner, listing a
 * user's logs, and deleting a log (which detaches it from its owner but does
 * not take back the points it earned).
 */
module Ledger {
  import opened Records

  /** The body of a log submission; every field may be missing. */
  datatype LogRequest = LogRequest(
    userId: Option<UserId>,
    wasteType: Option<string>,
    quantity: Option<int>,
    imageUrl: Option<string>,
    comment: Option<string>,
    ecoPointsEarned: Option<int>)

  /** The only validation: `userId`, `type` and `quantity` must be truthy. */
  predicate Accepts(req: LogRequest) {
    TruthyText(req.userId) && TruthyText(req.wasteType) && TruthyNumber(req.quantity)
  }

  /** The points a submission credits to its owner: `ecoPointsEarned || 0`. */
  function Earned(req: LogRequest): int {
    OrZero(req.ecoPointsEarned)
  }

  /** The stored document for an accepted submission. */
  function NewLog(id: LogId, req: LogRequest, now: int): WasteLog
    requires Accepts(req)
  {
    WasteLog(id, req.userId.value, now, req.wasteType.value, req.quantity.value,
             req.imageUrl, req.comment, req.ecoPointsEarned)
  }

  /**
   * `User.findByIdAndUpdate(owner, {$push: {logs: id}, $inc: {ecoPoints: amount}})`:
   * only the owner changes, if there is one; its points rise by `amount` and
   * `id` is appended to its `logs`.
   */
  function CreditOwner(users: map<UserId, User>, owner: UserId, id: LogId, amount: int): (r: map<UserId, User>)
    ensures r.Keys == users.Keys
    ensures r - {owner} == users - {owner}
    ensures owner in users ==>
      r[owner] == users[owner].(ecoPoints := users[owner].ecoPoints + amount, logs := users[owner].logs + [id])
  {
    if owner in users
    then users[owner := users[owner].(ecoPoints := users[owner].ecoPoints + amount, logs := users[owner].logs + [id])]
    else users
  }

  /**
   * `User.findByIdAndUpdate(owner, {$pull: {logs: id}})`: only the owner's `logs`
   * change, losing every occurrence of `id`; nobody's points change.
   */
  function DetachLog(users: map<UserId, User>, owner: UserId, id: LogId): (r: map<UserId, User>)
    ensures r.Keys == users.Keys
    ensures r - {owner} == users - {owner}
    ensures owner in users ==> r[owner] == users[owner].(logs := Pull(users[owner].logs, id))
    ensures PointsTable(r) == PointsTable(users)
  {
    if owner in users
    then
      var r := users[owner := users[owner].(logs := Pull(users[owner].logs, id))];
      assert forall u :: u in r ==> r[u].ecoPoints == users[u].ecoPoints;
      r
    else users
  }

  /**
   * addLog. A rejected request changes nothing. An accepted one stores exactly
   * one new log carrying the request's fields under a fresh id, appends that id
   * to the owner's `logs` and raises the owner's points by `Earned(req)`; no
   * other user and no challenge changes. The owner is not required to exist:
   * the log is stored anyway and then no user changes.
   */
  function AddLog(db: Db, req: LogRequest, now: int): (out: (Db, Response<WasteLog>))
    ensures !Accepts(req) ==> out == (db, BadRequest)
    ensures Accepts(req) ==>
      var (db', r) := out;
      && r.Ok?
      && r.value.id == db.nextLogId
      && r.value.userId == req.userId.value && r.value.wasteType == req.wasteType.value
      && r.value.quantity == req.quantity.value && r.value.imageUrl == req.imageUrl
      && r.value.comment == req.comment && r.value.ecoPointsEarned == req.ecoPointsEarned
      && r.value.date == now
      && db'.logs == db.logs + [r.value]
      && db'.nextLogId == db.nextLogId + 1
      && db'.challenges == db.challenges && db'.nextChallengeId == db.nextChallengeId
      && db'.users == CreditOwner(db.users, r.value.userId, r.value.id, Earned(req))
  {
    if !Accepts(req) then (db, BadRequest)
    else
      var log := NewLog(db.nextLogId, req, now);
      var users := CreditOwner(db.users, log.userId, log.id, Earned(req));
      (db.(users := users, logs := db.logs + [log], nextLogId := db.nextLogId + 1), Ok(log))
  }

  /** Submitting a log keeps a well-formed database well-formed. */
  lemma AddLogKeepsWellFormed(db: Db, req: LogRequest, now: int)
    requires WellFormed(db)
    ensures WellFormed(AddLog(db, req, now).0)
  {
  }

  /** getLogsByUser: the stored logs owned by `uid`, in storage order. */
  function LogsOf(logs: seq<WasteLog>, uid: UserId): (r: seq<WasteLog>)
    ensures forall l :: l in r <==> l in logs && l.userId == uid
    ensures forall l :: multiset(r)[l] == (if l.userId == uid then multiset(logs)[l] else 0)
    ensures |r| <= |logs|
  {
    if logs == [] then []
    else
      var init, last := logs[..|logs| - 1], logs[|logs| - 1];
      assert logs == init + [last];
      if last.userId == uid then LogsOf(init, uid) + [last] else LogsOf(init, uid)
  }

  /** The position of the log with id `id`, if one is stored. */
  function IndexOfLog(logs: seq<WasteLog>, id: LogId): (r: Option<nat>)
    ensures r.Some? ==> r.value < |logs| && logs[r.value].id == id
    ensures r.None? ==> forall i :: 0 <= i < |logs| ==> logs[i].id != id
  {
    if logs == [] then None
    else if logs[0].id == id then Some(0)
    else match IndexOfLog(logs[1..], id)
      case None => None
      case Some(k) => Some(k + 1)
  }

  /** The sequence without its element at position `i`. */
  function RemoveAt(s: seq<WasteLog>, i: nat): (r: seq<WasteLog>)
    requires i < |s|
    ensures |r| == |s| - 1
    ensures forall k :: 0 <= k < |r| ==> r[k] == s[if k < i then k else k + 1]
    ensures multiset(r) + multiset{s[i]} == multiset(s)
  {
    assert s == s[..i] + [s[i]] + s[i + 1..];
    s[..i] + s[i + 1..]
  }

  /**
   * deleteLog. An unknown id answers 404 and changes nothing. Otherwise exactly
   * that log is removed, every occurrence of its id is pulled from the owner's
   * `logs`, and no user's points change: the credit is not reversed.
   */
  function DeleteLog(db: Db, id: LogId): (out: (Db, Response<WasteLog>))
    ensures (forall l :: l in db.logs ==> l.id != id) ==> out == (db, NotFound)
    ensures (exists l :: l in db.logs && l.id == id) ==>
      var (db', r) := out;
      && r.Ok? && r.value in db.logs && r.value.id == id
      && multiset(db'.logs) + multiset{r.value} == multiset(db.logs)
      && db'.users == DetachLog(db.users, r.value.userId, id)
      && db'.challenges == db.challenges
      && db'.nextLogId == db.nextLogId && db'.nextChallengeId == db.nextChallengeId
  {
    match IndexOfLog(db.logs, id)
    case None => (db, NotFound)
    case Some(i) =>
      var log := db.logs[i];
      (db.(users := DetachLog(db.users, log.userId, id), logs := RemoveAt(db.logs, i)), Ok(log))
  }

  /** On a well-formed database, a successful delete leaves no log with that id, and keeps it well-formed. */
  lemma DeleteLogKeepsWellFormed(db: Db, id: LogId)
    requires WellFormed(db)
    ensures WellFormed(DeleteLog(db, id).0)
    ensures forall l :: l in DeleteLog(db, id).0.logs ==> l.id != id
  {
    match IndexOfLog(db.logs, id)
    case None =>
    case Some(i) =>
      var db' := DeleteLog(db, id).0;
      var logs := db'.logs;
      forall l | l in logs ensures l.id != id {
        var k :| 0 <= k < |logs| && logs[k] == l;
        assert logs[k] == db.logs[if k < i then k else k + 1];
      }
      forall a, b | 0 <= a < b < |logs| ensures logs[a].id != logs[b].id {
        assert logs[a] == db.logs[if a < i then a else a + 1];
        assert logs[b] == db.logs[if b < i then b else b + 1];
      }
      forall u, k | u in db'.users && 0 <= k < |db'.users[u].logs| ensures db'.users[u].logs[k] < db.nextLogId {
        assert db'.users[u].logs[k] in db.users[u].logs;
      }
  }

  /**
   * Submitting a log and then deleting it gives back the database as it was,
   * except that the owner keeps the points the log earned (deletion does not
   * reverse the credit) and the id counter has moved on.
   */
  lemma AddThenDeleteKeepsCredit(db: Db, req: LogRequest, now: int)
    requires WellFormed(db) && Accepts(req) && req.userId.value in db.users
    ensures DeleteLog(AddLog(db, req, now).0, AddLog(db, req, now).1.value.id)
         == (db.(users := db.users[req.userId.value := db.users[req.userId.value].(
                            ecoPoints := db.users[req.userId.value].ecoPoints + Earned(req))],
                 nextLogId := db.nextLogId + 1),
             AddLog(db, req, now).1)
  {
    FreshIdUnused(db, req.userId.value);
    var owner := req.userId.value;
    var log := WasteLog(db.nextLogId, owner, now, req.wasteType.value, req.quantity.value,
                        req.imageUrl, req.comment, req.ecoPointsEarned);
    var db1 := db.(users := CreditOwner(db.users, owner, db.nextLogId, Earned(req)),
                   logs := db.logs + [log], nextLogId := db.nextLogId + 1);
    assert AddLog(db, req, now).0 == db1;
    assert AddLog(db, req, now).1 == Ok(log);
    DeleteJustAdded(db, db1, log, Earned(req));
  }

  /** Deleting the log just appended and credited leaves only the credit and the advanced counter. */
  lemma DeleteJustAdded(db: Db, db1: Db, log: WasteLog, amount: int)
    requires log.userId in db.users && log.id !in db.users[log.userId].logs
    requires forall k :: 0 <= k < |db.logs| ==> db.logs[k].id != log.id
    requires db1 == db.(users := CreditOwner(db.users, log.userId, log.id, amount),
                        logs := db.logs + [log], nextLogId := db.nextLogId + 1)
    ensures DeleteLog(db1, log.id)
         == (db.(users := db.users[log.userId := db.users[log.userId].(ecoPoints := db.users[log.userId].ecoPoints + amount)],
                 nextLogId := db.nextLogId + 1),
             Ok(log))
  {
    DeleteAppended(db1, db.logs, log);
    UndoAppend(db, db1, log, amount);
  }

  /** Appending and crediting a log, then detaching and dropping it again, leaves only the credit and the counter. */
  lemma UndoAppend(db: Db, db1: Db, log: WasteLog, amount: int)
    requires log.userId in db.users && log.id !in db.users[log.userId].logs
    requires db1 == db.(users := CreditOwner(db.users, log.userId, log.id, amount),
                        logs := db.logs + [log], nextLogId := db.nextLogId + 1)
    ensures db1.(users := DetachLog(db1.users, log.userId, log.id), logs := db.logs)
         == db.(users := db.users[log.userId := db.users[log.userId].(ecoPoints := db.users[log.userId].ecoPoints + amount)],
                nextLogId := db.nextLogId + 1)
  {
    DetachAfterCredit(db.users, log.userId, log.id, amount);
  }

  /** Deleting a log that was appended under an id no other stored log has. */
  lemma DeleteAppended(db: Db, logs: seq<WasteLog>, log: WasteLog)
    requires db.logs == logs + [log]
    requires forall k :: 0 <= k < |logs| ==> logs[k].id != log.id
    ensures DeleteLog(db, log.id) == (db.(users := DetachLog(db.users, log.userId, log.id), logs := logs), Ok(log))
  {
    FreshLogIsLast(logs, log);
    DeleteFound(db, log.id, |logs|);
    assert db.logs[|logs|] == log;
  }

  /** On a well-formed database neither a stored log nor a user's list holds the next fresh log id. */
  lemma FreshIdUnused(db: Db, owner: UserId)
    requires WellFormed(db) && owner in db.users
    ensures db.nextLogId !in db.users[owner].logs
    ensures forall k :: 0 <= k < |db.logs| ==> db.logs[k].id != db.nextLogId
  {
    forall k | 0 <= k < |db.users[owner].logs| ensures db.users[owner].logs[k] != db.nextLogId {
    }
  }

  /** Pulling a log id that was just pushed undoes the push but not the credit. */
  lemma DetachAfterCredit(users: map<UserId, User>, owner: UserId, id: LogId, amount: int)
    requires owner in users && id !in users[owner].logs
    ensures DetachLog(CreditOwner(users, owner, id, amount), owner, id)
         == users[owner := users[owner].(ecoPoints := users[owner].ecoPoints + amount)]
  {
    PullAfterPush(users[owner].logs, id);
  }

  /** A log whose id no stored log has, once appended, is found at the end. */
  lemma FreshLogIsLast(logs: seq<WasteLog>, log: WasteLog)
    requires forall k :: 0 <= k < |logs| ==> logs[k].id != log.id
    ensures IndexOfLog(logs + [log], log.id) == Some(|logs|)
    ensures RemoveAt(logs + [log], |logs|) == logs
  {
    var all := logs + [log];
    forall k | 0 <= k < |logs| ensures all[k].id != log.id {
      assert all[k] == logs[k];
    }
    assert all[|logs|] == log;
  }

  /** What deleteLog does once the log is found at position `i`. */
  lemma DeleteFound(db: Db, id: LogId, i: nat)
    requires IndexOfLog(db.logs, id) == Some(i)
    ensures DeleteLog(db, id) == (db.(users := DetachLog(db.users, db.logs[i].userId, id),
                                      logs := RemoveAt(db.logs, i)), Ok(db.logs[i]))
  {
  }
}
