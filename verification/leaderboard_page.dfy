/**
 * The list logic of the leaderboard page: each fetched row gets its rank
 * (its position, counted from one) and a flag saying whether it is the
 * signed-in user; the side panel then shows the first flagged row's rank and
 * points, or a dash and zero.
 */
module LeaderboardPage {
  import opened Records
  import Leaderboard

  /** The signed-in user as the page holds it: `user.id` and `user._id`, either possibly undefined. */
  datatype Viewer = Viewer(id: Option<UserId>, altId: Option<UserId>)

  /** A fetched row with the two fields the page adds. */
  datatype Row = Row(entry: Leaderboard.Entry, rank: nat, isCurrentUser: bool)

  /** What the side panel shows as the rank: a number, or `"-"`. */
  datatype RankCell = Rank(n: nat) | Dash

  /** The side panel: `userStats`. */
  datatype Summary = Summary(rank: RankCell, totalPoints: int)

  /** `u._id === user.id || u._id === user._id`; an undefined field never equals a row's id. */
  predicate IsCurrent(e: Leaderboard.Entry, v: Viewer) {
    v.id == Some(e.id) || v.altId == Some(e.id)
  }

  /**
   * The `map((u, idx) => ...)` step: the rows keep their order and their
   * fields, row i gets rank i + 1, and the flag holds exactly for the viewer's
   * rows.
   */
  function Ranked(data: seq<Leaderboard.Entry>, v: Viewer): (r: seq<Row>)
    ensures |r| == |data|
    ensures forall i :: 0 <= i < |r| ==>
      r[i].entry == data[i] && r[i].rank == i + 1 && (r[i].isCurrentUser <==> IsCurrent(data[i], v))
  {
    seq(|data|, i requires 0 <= i < |data| => Row(data[i], i + 1, IsCurrent(data[i], v)))
  }

  /** Ranks run 1, 2, ..., n down the list, so no two rows share a rank. */
  lemma RanksAreOneToN(data: seq<Leaderboard.Entry>, v: Viewer)
    ensures var r := Ranked(data, v);
      && (forall i :: 0 <= i < |r| ==> 1 <= r[i].rank <= |r|)
      && (forall i, j :: 0 <= i < j < |r| ==> r[i].rank < r[j].rank)
  {
  }

  /** `data.find((u) => u.isCurrentUser)`, as the position of the first flagged row. */
  function FindCurrent(rows: seq<Row>): (r: Option<nat>)
    ensures r.Some? ==> r.value < |rows| && rows[r.value].isCurrentUser
    ensures r.Some? ==> forall k :: 0 <= k < r.value ==> !rows[k].isCurrentUser
    ensures r.None? ==> forall k :: 0 <= k < |rows| ==> !rows[k].isCurrentUser
  {
    if rows == [] then None
    else if rows[0].isCurrentUser then Some(0)
    else match FindCurrent(rows[1..])
      case None => None
      case Some(k) => Some(k + 1)
  }

  /** The side panel: the found row's rank and points, or a dash and zero. */
  function Summarize(rows: seq<Row>): (s: Summary)
    ensures s.rank.Dash? <==> forall k :: 0 <= k < |rows| ==> !rows[k].isCurrentUser
    ensures s.rank.Dash? ==> s.totalPoints == 0
    ensures s.rank.Rank? ==> exists k :: (0 <= k < |rows| && rows[k].isCurrentUser &&
      s.rank.n == rows[k].rank && s.totalPoints == rows[k].entry.ecoPoints &&
      forall j :: 0 <= j < k ==> !rows[j].isCurrentUser)
  {
    match FindCurrent(rows)
    case None => Summary(Dash, 0)
    case Some(k) => Summary(Rank(rows[k].rank), rows[k].entry.ecoPoints)
  }

  /**
   * After ranking, the panel shows the position (from one) of the viewer's
   * first row and that row's points; when the viewer has no row, a dash and 0.
   */
  lemma PanelShowsViewersFirstRow(data: seq<Leaderboard.Entry>, v: Viewer)
    ensures var s := Summarize(Ranked(data, v));
      && (s.rank.Dash? <==> forall k :: 0 <= k < |data| ==> !IsCurrent(data[k], v))
      && (s.rank.Dash? ==> s.totalPoints == 0)
      && (s.rank.Rank? ==>
            && 1 <= s.rank.n <= |data|
            && IsCurrent(data[s.rank.n - 1], v)
            && s.totalPoints == data[s.rank.n - 1].ecoPoints
            && forall j :: 0 <= j < s.rank.n - 1 ==> !IsCurrent(data[j], v))
  {
    var rows := Ranked(data, v);
    match FindCurrent(rows)
    case None =>
    case Some(k) =>
      assert rows[k].rank == k + 1;
  }
}
