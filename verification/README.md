# Eco-points accounting, modelled in Dafny

This project models the points-and-progress core of the Eco-champs
application, in Dafny. Users earn `ecoPoints` by logging waste and by
completing challenges. The backend controllers keep the user, waste-log and
challenge records, and two frontend pages sort those records into lists.

- `records.dfy` (module `Records`) defines the three stored record kinds and
  the database that holds them. It also defines JavaScript truthiness,
  `x || 0`, and the three array operators the controllers use: `$push`
  (append), `$pull` (remove every occurrence) and `$addToSet` (append unless
  present).
- `ledger.dfy` (module `Ledger`) covers the waste-log controller:
  - `addLog` only checks that `userId`, `type` and `quantity` are truthy. It
    stores the log, then appends its id to the owner's `logs` and adds
    `ecoPointsEarned || 0` to the owner's points.
  - `getLogsByUser` filters the stored logs by owner.
  - `deleteLog` removes the log and pulls its id from the owner, but keeps
    the points.
- `challenge_ops.dfy` (module `ChallengeOps`) covers the challenge
  controller:
  - `createChallenge` stores the request's fields.
  - `joinChallenge` set-inserts on both sides.
  - `completeChallenge` set-inserts the title as a badge and credits
    `rewardPoints || 0` on every call, when the challenge and the user exist.
    A missing user still gets a success reply, but nothing is credited.
- `store.dfy` (module `Store`) is the database as a class whose methods
  update its collections in place, in the controllers' order. Each method is
  tied to the step function above. It also keeps a ghost record of every
  credit granted. Its invariant says what holds of this code: a user's points
  are the user's opening points plus every credit granted since. That
  includes the credits of logs deleted later and one credit per completion
  call on an existing challenge by an existing user. A 404, or a call for a
  missing user, records no credit. So "points = points of live logs + rewards" does not hold.
- `user_stats.dfy` (module `UserStats`) is the statistics fold. It gives
  `logCount`, the per-type `wasteBreakdown` (each type present once, with
  its total), `wasteDiverted` and `co2Saved`. The
  CO2 figure is half the quantity of logs typed exactly `"Recycled"`.
- `leaderboard.dfy` (module `Leaderboard`) is the top-20 query: sort by
  points descending, limit, and project to id, name, points and badges.
- `challenges_page.dfy` (module `ChallengesPage`) covers the challenges
  page:
  - the active, available and completed tabs;
  - the local list updates after a join or a completion.
- `leaderboard_page.dfy` (module `LeaderboardPage`) covers rank assignment
  and the current-user panel on the leaderboard page.
- `scenarios.dfy` (module `Scenarios`) states worked examples on small
  concrete databases, as lemmas about the step functions.

The model keeps these behaviours of the code as they are:

- `addLog` does not check that the owner exists. The log is stored and no
  user changes.
- `addLog` checks truthiness only. `quantity = 0` and an empty `type` are
  rejected, but a negative quantity is stored.
- `deleteLog` does not take back the points the log earned.
- `completeChallenge` neither requires a prior join nor blocks a repeated
  completion, so points are credited again on every call.
- The stored challenge has no `completedBy` field, but the challenges page
  reads one. The page model takes it as part of its input (see Left out).
- The challenges page matches challenges by `challenge.id`, but the stored
  records carry `_id`. `ChallengesPage.JoinWithoutIdsTouchesAll` shows that
  if a join request for the missing id succeeded, every challenge would be
  updated. Against the backend that request fails: the button sends the
  missing id, the id cast fails, and the server answers 500. The page then
  leaves the list unchanged (the `apiOk = false` case of
  `ChallengesPage.AfterJoin`), so neither the list nor the backend changes.

Log and challenge ids are counters (`nat`), and user ids are strings. The
request time stamp is a parameter (`now`), and a log's `date` is set from
it.

## Model

| member | source | states |
|---|---|---|
| Records.OrZero | backend/controllers/logsController.js:12 | `n \|\| 0` is `n` when `n` is truthy, and 0 when it is absent or 0 |
| Records.AddToSet | backend/controllers/ChallengeController.js:30 | `$addToSet`: the elements afterwards are the old ones plus `x`; a list already holding `x` is unchanged; no duplicates are introduced; the old list is a prefix; the list grows by at most one |
| Records.AddToSetIdempotent | backend/controllers/ChallengeController.js:30 | a second `$addToSet` of the same value changes nothing |
| Records.Pull | backend/controllers/logsController.js:34 | `$pull`: every occurrence of `x` is removed and every other element keeps its multiplicity and its order (an order-preserving subsequence); unchanged when `x` is absent |
| Records.PullAfterPush | backend/controllers/logsController.js:12 | pulling a value that was just pushed onto a list without it gives that list back |
| Ledger.CreditOwner | backend/controllers/logsController.js:12 | only the owner's record changes, if the owner exists; its points rise by the amount and the log id goes to the end of its `logs` |
| Ledger.DetachLog | backend/controllers/logsController.js:34 | only the owner's `logs` change, losing every occurrence of the id; nobody's points change |
| Ledger.AddLog | backend/controllers/logsController.js:4-17 | a falsy `userId`, `type` or `quantity` gives 400 and no change; otherwise exactly one log is appended under a fresh id with the request's fields, only the owner is credited `ecoPointsEarned \|\| 0` and gets the id appended (no user changes when the owner is missing) |
| Ledger.AddLogKeepsWellFormed | backend/controllers/logsController.js:10-12 | submitting a log keeps the database well-formed: ids stay unique and below the counter |
| Ledger.LogsOf | backend/controllers/logsController.js:21-23 | `getLogsByUser`: exactly the stored logs with that owner, each with its multiplicity in the store |
| Ledger.DeleteLog | backend/controllers/logsController.js:29-39 | an unknown id gives 404 and no change; otherwise the log with that id is removed (the others are kept, as a multiset), its id is pulled from the owner, and no points change; the reply carries the removed log (see Left out) |
| Ledger.DeleteLogKeepsWellFormed | backend/controllers/logsController.js:32-34 | deletion keeps the database well-formed and leaves no log with the deleted id |
| Ledger.AddThenDeleteKeepsCredit | backend/controllers/logsController.js:10-34 | submitting a log and deleting it gives back the original database, except that the owner keeps the points earned and the id counter has advanced |
| Ledger.DetachAfterCredit | backend/controllers/logsController.js:34 | pulling an id just pushed to the owner undoes the push but not the credit |
| ChallengeOps.CreateChallenge | backend/controllers/ChallengeController.js:13-22 | always succeeds; a challenge with exactly the request's title, description, dates, tasks, reward and active flag, and no participants, is stored under a fresh id; nothing else changes |
| ChallengeOps.RecordJoin | backend/controllers/ChallengeController.js:34 | only the user's `joinedChallenges` changes, if the user exists, by a set-insert of the challenge id: the list is unchanged if the id is already there, otherwise the id is appended at the end (`Records.AddToSet`) |
| ChallengeOps.JoinChallenge | backend/controllers/ChallengeController.js:24-39 | an unknown challenge gives 404 and no change; otherwise the user is set-inserted into that challenge's participants only (kept as they were if already present, otherwise appended at the end, as `Records.AddToSet`), the challenge id is set-inserted into the user's joined list (when the user exists), logs do not change, and the updated challenge is returned |
| ChallengeOps.JoinTwiceIsJoinOnce | backend/controllers/ChallengeController.js:28-34 | joining a second time with the same ids changes nothing further and gives the same reply |
| ChallengeOps.Award | backend/controllers/ChallengeController.js:48-51 | only the user changes: the title is set-inserted into its badges (badges unchanged if already held, otherwise the title is appended at the end, as `Records.AddToSet`) and its points rise by the reward |
| ChallengeOps.CompleteChallenge | backend/controllers/ChallengeController.js:41-56 | an unknown challenge gives 404 and no change; otherwise the user gets the badge and `rewardPoints \|\| 0` points, with no join required, and neither the challenge nor the logs change |
| ChallengeOps.CompleteTwiceCreditsTwice | backend/controllers/ChallengeController.js:48-51 | two completions credit the reward twice while the badges stay those of one completion |
| Store.AddLogKeepsAccounts | backend/controllers/logsController.js:10-12 | an accepted submission by an existing owner records one log credit, and the accounting invariant still holds |
| Store.DeleteLogKeepsAccounts | backend/controllers/logsController.js:32-34 | deletion keeps the invariant with the credit history untouched: credits of deleted logs stay counted |
| Store.CreateChallengeKeepsAccounts | backend/controllers/ChallengeController.js:16-17 | creating a challenge keeps the accounting invariant |
| Store.JoinKeepsAccounts | backend/controllers/ChallengeController.js:28-34 | joining changes nobody's points and keeps the invariant |
| Store.CompleteKeepsAccounts | backend/controllers/ChallengeController.js:46-51 | one reward credit per call on an existing challenge by an existing user; none on a 404 or for a missing user (which still answers `Ok`); the invariant still holds |
| Store.Store.constructor | backend/models/User.js:3-11 | a store holding the given accounts and nothing else, with opening points equal to their points and no credits yet |
| Store.Store.AddLog | backend/controllers/logsController.js:4-17 | in place, the state and reply are those of `Ledger.AddLog`, the accounting invariant is kept, and the history gains the credit granted |
| Store.Store.DeleteLog | backend/controllers/logsController.js:29-39 | in place, the state and reply are those of `Ledger.DeleteLog`; the invariant is kept and no credit is withdrawn |
| Store.Store.CreateChallenge | backend/controllers/ChallengeController.js:13-22 | in place, as `ChallengeOps.CreateChallenge`; the invariant is kept |
| Store.Store.JoinChallenge | backend/controllers/ChallengeController.js:24-39 | in place, as `ChallengeOps.JoinChallenge`; the invariant is kept |
| Store.Store.CompleteChallenge | backend/controllers/ChallengeController.js:41-56 | in place, as `ChallengeOps.CompleteChallenge`; the invariant is kept; the history gains one reward credit per call on an existing challenge by an existing user, and none on a 404 or for a missing user (which still answers `Ok`) |
| UserStats.TalliedKeys | backend/controllers/userStatsController.js:14 | one reduce step adds the log's type as a key and no other |
| UserStats.TalliedLookup | backend/controllers/userStatsController.js:14 | one reduce step sets `acc[t]` to `(acc[t] \|\| 0) + quantity` and leaves every other key's value |
| UserStats.TalliedDistinct | backend/controllers/userStatsController.js:14 | one reduce step never duplicates a key |
| UserStats.TalliedSum | backend/controllers/userStatsController.js:14 | one reduce step adds the quantity to the sum of the values |
| UserStats.BreakdownKeys | backend/controllers/userStatsController.js:13-16 | the breakdown's keys are exactly the types of the logs, with no key twice |
| UserStats.BreakdownValues | backend/controllers/userStatsController.js:13-16 | the value under a type present is the total quantity of that type; an absent type has no value |
| UserStats.BreakdownIsPerTypeTotal | backend/controllers/userStatsController.js:13-16 | the breakdown's keys are exactly the types present, each once, and each value is the total quantity of that type |
| UserStats.BreakdownSumsToDiverted | backend/controllers/userStatsController.js:13-19 | the breakdown's values add up to `wasteDiverted` |
| UserStats.Co2IsHalfOfRecycled | backend/controllers/userStatsController.js:18 | `co2Saved` is 0.5 times the total quantity of logs typed exactly "Recycled" |
| UserStats.Co2FromBreakdown | backend/controllers/userStatsController.js:13-18 | `co2Saved` is 0.5 times the breakdown's "Recycled" value, or 0 without that key |
| UserStats.FormLogsSaveNoCo2 | backend/controllers/userStatsController.js:18 | logs whose types are the log form's category ids (plastic, paper, glass, metal, organic, electronic) save no CO2 |
| UserStats.GetUserStats | backend/controllers/userStatsController.js:4-32 | unknown user gives 404; otherwise points and badges are copied from the user record, `logCount` is the number of the user's logs, the breakdown has exactly the types present with per-type totals and sums to `wasteDiverted`, which is the sum of the quantities of the user's logs, and `co2Saved` is half the "Recycled" value or 0; nothing is changed |
| Leaderboard.Insert | backend/controllers/LeaderboardController.js:6 | inserting a user adds exactly that user (as a multiset) |
| Leaderboard.InsertKeepsDescending | backend/controllers/LeaderboardController.js:6 | inserting into a list in descending points order keeps it in that order |
| Leaderboard.SortByPoints | backend/controllers/LeaderboardController.js:6 | the sorted list is a permutation of the listing in non-increasing points order |
| Leaderboard.Top | backend/controllers/LeaderboardController.js:6 | min(20, number of users) users, drawn from the listing without repetition, in non-increasing points order |
| Leaderboard.LeftOutHaveNoMorePoints | backend/controllers/LeaderboardController.js:6 | no user left out has more points than the last user kept |
| Leaderboard.GetLeaderboard | backend/controllers/LeaderboardController.js:3-11 | min(20, number of users) rows in non-increasing points order; row i is the i-th top user projected to id, name, points and badges (no email or password hash) |
| Leaderboard.PeriodIgnored | backend/controllers/LeaderboardController.js:3-6 | the requested period does not affect the result |
| Leaderboard.LeaderboardRowsAreDistinctUsers | backend/controllers/LeaderboardController.js:6 | with unique user ids, every row projects a listed user and no user appears twice |
| ChallengesPage.Filter | frontend/app/challenges/page.jsx:98-104 | `filter` keeps every occurrence of each element satisfying the predicate and nothing else, in the original order |
| ChallengesPage.Active | frontend/app/challenges/page.jsx:98-100 | every occurrence of each challenge with the user among the participants and not in `completedBy`, and nothing else, in list order |
| ChallengesPage.Available | frontend/app/challenges/page.jsx:102 | every occurrence of each challenge without the user among the participants, and nothing else, in list order |
| ChallengesPage.Completed | frontend/app/challenges/page.jsx:104 | every occurrence of each challenge with the user in `completedBy`, and nothing else, in list order |
| ChallengesPage.TabsPartition | frontend/app/challenges/page.jsx:98-104 | active is disjoint from available and from completed; every challenge is on some tab; one joined and completed is on the completed tab only |
| ChallengesPage.CompletedMayBeAvailable | frontend/app/challenges/page.jsx:102-104 | a challenge completed without joining is on both the available and the completed tab |
| ChallengesPage.AfterJoin | frontend/app/challenges/page.jsx:55-75 | signed out or on a failed request the list is unchanged; otherwise only challenges whose id matches get the user appended to their participants (one more occurrence even if already present); length and order are kept |
| ChallengesPage.AfterComplete | frontend/app/challenges/page.jsx:77-95 | as for a join, but the user is appended to `completedBy` (one more occurrence of the user, even if already listed) |
| ChallengesPage.JoinMovesToActive | frontend/app/challenges/page.jsx:63-69 | after a join the challenge leaves the available tab and, unless already completed, is active |
| ChallengesPage.CompleteMovesToCompleted | frontend/app/challenges/page.jsx:85-89 | after a completion the challenge leaves the active tab and is on the completed tab |
| ChallengesPage.JoinWithoutIdsTouchesAll | frontend/app/challenges/page.jsx:65 | when no challenge carries `id` and the handler is given that missing id, a join whose request succeeded would append the user to every challenge |
| LeaderboardPage.Ranked | frontend/app/leaderboard/page.jsx:36-40 | length, order and entries are kept; row i gets rank i + 1; the flag holds exactly when the row's id equals `user.id` or `user._id` |
| LeaderboardPage.RanksAreOneToN | frontend/app/leaderboard/page.jsx:36-38 | ranks lie in 1..n and strictly increase down the list |
| LeaderboardPage.FindCurrent | frontend/app/leaderboard/page.jsx:43 | `find`: the first flagged row, or none when no row is flagged |
| LeaderboardPage.Summarize | frontend/app/leaderboard/page.jsx:44-47 | a dash and 0 exactly when no row is flagged; otherwise the rank and points of the first flagged row |
| LeaderboardPage.PanelShowsViewersFirstRow | frontend/app/leaderboard/page.jsx:36-47 | the panel shows the one-based position and points of the viewer's first row, or a dash and 0 when the viewer has none |
| Scenarios.SubmitRecycledLog | backend/controllers/userStatsController.js:18 | a user with 0 points logging 10 of "Recycled" for 20 points has 20 points, one log, 5.0 CO2 and 10 diverted |
| Scenarios.SubmitFormLog | backend/controllers/userStatsController.js:18 | the same log typed "plastic" saves no CO2 |
| Scenarios.OwnLogsOfFreshDb | backend/controllers/logsController.js:22 | after the first submission, the user's only log is the new one |
| Scenarios.QuantityChecksTruthinessOnly | backend/controllers/logsController.js:7 | quantity 0 and an empty type are rejected; a negative quantity is stored |
| Scenarios.JoinThenComplete | backend/controllers/ChallengeController.js:41-51 | joining a 50-point challenge and completing it gives the badge, 50 points and the joined entry |
| Scenarios.DeleteKeepsPoints | backend/controllers/logsController.js:32-34 | deleting the only log leaves no logs and a log count of 0, but the 20 points stay |
| Scenarios.ThreeUserLeaderboard | backend/controllers/LeaderboardController.js:6 | users with 30, 10 and 20 points are listed as 30, 20, 10 |

## Left out

- ChallengesPage.Active, ChallengesPage.Completed, ChallengesPage.AfterComplete: these describe a client whose challenges carry a `completedBy` array. Nothing in the backend produces one: the challenge schema has no such field (backend/models/Challenge.js:3-12). On the records the backend returns, `challenge.completedBy.includes(...)` throws a TypeError:
  - as soon as the list is non-empty, when the completed tab is filtered (frontend/app/challenges/page.jsx:104);
  - for any challenge the user has joined, when the active tab is filtered (page.jsx:99).

  The spread `[...challenge.completedBy, user.id]` (page.jsx:87) throws inside the `try`, so a completion leaves the list unchanged. The model does not represent a missing `completedBy` or these exceptions.

- HTTP plumbing is not modelled: routing, authentication middleware, the
  500 replies from the `catch` blocks, and the shape of the JSON messages.
  Each controller's result is `Ok`, `BadRequest` or `NotFound`.
- Database failures, ObjectId cast errors and concurrency are not modelled.
  Each operation is one sequential step.
- `getAllChallenges` (backend/controllers/ChallengeController.js:4-11) is a
  plain read of the challenges map, so it has no member of its own.
- User signup, login, tokens and the auth context are outside this core.
  `Store.Store.constructor` takes the registered accounts as given, with no
  logs yet.
- The Badge model is never evaluated by the code.
- The date-based "today"/"weekly" figures of the logging page depend on the
  wall clock.
- The progress bars and the rendering of the pages are not modelled.
- The network client is a thin wrapper and is not modelled.
- Fetching on the pages is not modelled. The page models start from the
  fetched list, and a failed call is the `apiOk = false` case.
- The leaderboard page's early return when no one is signed in is not
  modelled. `LeaderboardPage` assumes a signed-in viewer.
- `co2Saved` is an exact `real`, not a binary floating-point number.
  Quantities are integers, as the logging form parses them.
- Special JavaScript object keys such as `__proto__` are not modelled as
  breakdown keys.
- UserStats.Breakdown: lists the keys in first-appearance order. A
  JavaScript object lists integer-like keys (such as `"5"`) first, in
  ascending numeric order. The contracts state which keys there are and
  their values, not their order.
- Ledger.DeleteLog: replies with the removed log, so that the contract can
  name it. The source replies only with the confirmation message
  `{message: "Log deleted"}` (backend/controllers/logsController.js:35).
- ChallengeOps.CreateChallenge: takes every request field except
  `rewardPoints` as present. The source validates nothing and stores
  whatever fields the body carries (backend/controllers/ChallengeController.js:15-16).
  A challenge stored without a `title` would make the badge insert of
  `completeChallenge` act on an undefined value, which the model does not
  capture.
- The store is a sequence in insertion order, which stands for the
  collection's natural order.
- Leaderboard.SortByPoints: fixes one order among users with equal points
  (stable, listing order). The database leaves that order unspecified, so
  the contracts state only the points order.
- The `$inc` on a non-numeric or missing points field is not modelled.
  Points are always integers.
