/**
 * The `/leaderboard` command (src/slashCommands/leaderboard.js). The channel,
 * the competition mode (read through a store function whose definition is
 * not part of this model) and today are inputs; the post made is the result.
 */
module LeaderboardCommand {
  import opened Wrappers
  import opened Validation
  import opened Sheets
  import opened Messages
  import opened Ranking

  /** The posted leaderboard: the optional status line and one line per shown entry. */
  datatype Board = Board(status: Option<StatusLine>, lines: seq<Line>)

  datatype Reply =
    | ChannelMissing   // ephemeral error, nothing posted
    | NoParticipants   // "No participants yet." posted, then the ephemeral confirmation
    | Posted(board: Board)  // the board posted, then the ephemeral confirmation

  /** The entries shown: the five best of the ranking. */
  const Shown: nat := 5

  /**
   * `handleLeaderboard`: the channel guard, the empty-sheet post, otherwise the top five of
   * the ranking with medals, under the deadline status when a deadline is set.
   */
  method HandleLeaderboard(store: Store, channel: string, mode: string, today: Date) returns (reply: Reply)
    requires ValidDate(today)
    ensures channel == [] <==> reply == ChannelMissing
    ensures channel != [] && AllUsers(store.users) == [] ==> reply == NoParticipants
    ensures channel != [] && AllUsers(store.users) != [] ==> reply.Posted?
    ensures reply.Posted? ==>
      var top := Top(Rank(AllUsers(store.users), mode), Shown);
      |reply.board.lines| == |top|
      && (forall k :: 0 <= k < |top| ==> reply.board.lines[k] == Line(MedalFor(k), top[k], mode))
    ensures reply.Posted? ==>
      var deadline := ConfigLookup(store.config, DeadlineKey);
      (reply.board.status.Some? <==> deadline.Some?)
      && (deadline.Some? ==>
            reply.board.status.value == ChallengeStatus(deadline, DaysBetween(FormatDate(today), deadline.value)))
  {
    if channel == [] {
      return ChannelMissing;
    }
    var users := store.GetAllUsers();
    if |users| == 0 {
      return NoParticipants;
    }
    var leaderboard := CollectEntries(users, mode);
    var sorted := StableSortDesc(leaderboard, MetricKey);
    var top5 := Top(sorted, Shown);
    var status: Option<StatusLine> := None;
    var deadline := store.GetDeadline();
    if deadline.Some? {
      var todayText := FormatDate(today);
      var daysLeft := DaysBetween(todayText, deadline.value);
      status := Some(ChallengeStatus(deadline, daysLeft));
    }
    var lines := RankLines(top5, mode);
    return Posted(Board(status, lines));
  }

  /** The posted list has `min(5, n)` lines for `n` users with a positive baseline, in ranking order. */
  lemma PostedLength(users: seq<UserData>, mode: string)
    ensures |Top(Rank(users, mode), Shown)| == if Participants(users) < Shown then Participants(users) else Shown
    ensures SortedDesc(Top(Rank(users, mode), Shown), MetricKey)
  {
    RankProperties(users, mode, 0.0);
  }
}
