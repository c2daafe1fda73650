/**
 * The three stored record kinds of the eco-points backend (users, waste logs,
 * challenges), the database that holds them, and the array primitives the
 * controllers apply to record fields: `$push` (append), `$pull` (remove every
 * occurrence) and `$addToSet` (append unless present).
 */
module Records {

  datatype Option<+T> = None | Some(value: T)

  /** What a controller answers: the payload of a 2xx reply, a 400 or a 404. */
  datatype Response<+T> = Ok(value: T) | BadRequest | NotFound

  type UserId = string
  type LogId = nat
  type ChallengeId = nat

  /** A user document; `logs` and `joinedChallenges` are arrays of references. */
  datatype User = User(
    id: UserId,
    name: string,
    email: string,
    passwordHash: string,
    ecoPoints: int,
    badges: seq<string>,
    logs: seq<LogId>,
    joinedChallenges: seq<ChallengeId>)

  /** A waste-log document; `date` is the creation time stamp. */
  datatype WasteLog = WasteLog(
    id: LogId,
    userId: UserId,
    date: int,
    wasteType: string,
    quantity: int,
    imageUrl: Option<string>,
    comment: Option<string>,
    ecoPointsEarned: Option<int>)

  /** A challenge document; dates are time stamps, `rewardPoints` may be unset. */
  datatype Challenge = Challenge(
    title: string,
    description: string,
    startDate: int,
    endDate: int,
    tasks: seq<string>,
    rewardPoints: Option<int>,
    participants: seq<UserId>,
    isActive: bool)

  /** The persistent collections. Logs keep their insertion (natural) order. */
  datatype Db = Db(
    users: map<UserId, User>,
    logs: seq<WasteLog>,
    challenges: map<ChallengeId, Challenge>,
    nextLogId: LogId,
    nextChallengeId: ChallengeId)

  /** JavaScript truthiness of an optional string field: absent and "" are falsy. */
  predicate TruthyText(s: Option<string>) {
    s.Some? && s.value != ""
  }

  /** JavaScript truthiness of an optional number field: absent and 0 are falsy. */
  predicate TruthyNumber(n: Option<int>) {
    n.Some? && n.value != 0
  }

  /** The value of `n || 0`. */
  function OrZero(n: Option<int>): (r: int)
    ensures TruthyNumber(n) ==> r == n.value
    ensures !TruthyNumber(n) ==> r == 0
  {
    if n.Some? then n.value else 0
  }

  /** Every user's `ecoPoints`, by user id. */
  function PointsTable(users: map<UserId, User>): (t: map<UserId, int>)
    ensures t.Keys == users.Keys
    ensures forall u :: u in t ==> t[u] == users[u].ecoPoints
  {
    map u | u in users :: users[u].ecoPoints
  }

  predicate NoDuplicates<T(==,!new)>(s: seq<T>) {
    forall i, j :: 0 <= i < j < |s| ==> s[i] != s[j]
  }

  /** `r` is `s` with some elements removed, the rest kept in their order. */
  predicate IsSubsequence<T(==)>(r: seq<T>, s: seq<T>)
    decreases |s|
  {
    if s == [] then r == []
    else (r != [] && r[0] == s[0] && IsSubsequence(r[1..], s[1..])) || IsSubsequence(r, s[1..])
  }

  /** `$addToSet`: append `x` unless it is already an element. */
  function AddToSet<T(==,!new)>(s: seq<T>, x: T): (r: seq<T>)
    ensures forall y :: y in r <==> y in s || y == x
    ensures x in s ==> r == s
    ensures NoDuplicates(s) ==> NoDuplicates(r)
    ensures s <= r && |r| <= |s| + 1
  {
    if x in s then s else s + [x]
  }

  lemma AddToSetIdempotent<T(!new)>(s: seq<T>, x: T)
    ensures AddToSet(AddToSet(s, x), x) == AddToSet(s, x)
  {
  }

  /** `$pull`: remove every occurrence of `x`, keeping the order of the rest. */
  function Pull<T(==,!new)>(s: seq<T>, x: T): (r: seq<T>)
    ensures forall y :: y in r <==> y in s && y != x
    ensures forall y :: multiset(r)[y] == (if y == x then 0 else multiset(s)[y])
    ensures IsSubsequence(r, s)
    ensures |r| <= |s|
    ensures x !in s ==> r == s
  {
    if s == [] then []
    else
      var rest := Pull(s[1..], x);
      assert s == [s[0]] + s[1..];
      if s[0] == x then rest
      else
        assert ([s[0]] + rest)[1..] == rest;
        [s[0]] + rest
  }

  /** Pulling an element that was just pushed onto a list without it gives the list back. */
  lemma {:induction false} PullAfterPush<T(!new)>(s: seq<T>, x: T)
    requires x !in s
    ensures Pull(s + [x], x) == s
  {
    if s == [] {
      assert [x][1..] == [];
    } else {
      assert (s + [x])[1..] == s[1..] + [x];
      PullAfterPush(s[1..], x);
    }
  }

  /**
   * The structural invariant every operation keeps: users are keyed by their own
   * id, log ids are distinct and below the next fresh id, every log reference a
   * user holds is below the next fresh id, challenge ids are below theirs.
   */
  predicate WellFormed(db: Db) {
    && (forall u :: u in db.users ==> db.users[u].id == u)
    && (forall i :: 0 <= i < |db.logs| ==> db.logs[i].id < db.nextLogId)
    && (forall i, j :: 0 <= i < j < |db.logs| ==> db.logs[i].id != db.logs[j].id)
    && (forall u, i :: u in db.users && 0 <= i < |db.users[u].logs| ==> db.users[u].logs[i] < db.nextLogId)
    && (forall c :: c in db.challenges ==> c < db.nextChallengeId)
  }
}
