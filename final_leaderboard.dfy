/**
 * The final celebration leaderboard (src/services/finalLeaderboard.js): the daily gate
 * that decides whether to post it, and the post that lists every participant and then
 * records that it was sent. The channel, the competition mode and whether Slack accepted
 * the post are inputs.
 */
module FinalLeaderboard {
  import opened Wrappers
  import opened Text
  import opened Validation
  import opened Sheets
  import opened Ranking

  /** The text that marks the final leaderboard as posted. */
  const SentValue: string := "true"

  /**
   * `shouldSendFinalLeaderboard` on the values it reads: a deadline is stored, it names
   * the day before today, and the sent flag is not `"true"`.
   */
  predicate ShouldSend(deadline: Option<string>, today: Date, sent: Option<string>)
  {
    deadline.Some? && ParseDate(deadline.value).Some?
    && DayNumber(ParseDate(deadline.value).value) + 1 == DayNumber(today)
    && sent != Some(SentValue)
  }

  /** The gate, reading the deadline and then, only when the date test passes, the flag. */
  method ShouldSendFinalLeaderboard(store: Store, today: Date) returns (send: bool)
    requires ValidDate(today)
    ensures send <==> ShouldSend(ConfigLookup(store.config, DeadlineKey), today, ConfigLookup(store.config, FinalSentKey))
    ensures ConfigLookup(store.config, DeadlineKey).None? ==> !send
    ensures ConfigLookup(store.config, FinalSentKey) == Some(SentValue) ==> !send
  {
    var deadline := store.GetDeadline();
    if deadline.None? {
      return false;
    }
    var deadlineDate := ParseDate(deadline.value);
    if deadlineDate.None? || DayNumber(deadlineDate.value) != DayNumber(today) - 1 {
      return false;
    }
    var finalLeaderboardSent := store.GetConfigValue(FinalSentKey);
    if finalLeaderboardSent == Some(SentValue) {
      return false;
    }
    return true;
  }

  /** The gate opens on one day only for a given deadline: the day after it, and that day reads one day past it. */
  lemma GateOpensOnce(deadline: string, t1: Date, t2: Date, s1: Option<string>, s2: Option<string>)
    requires ValidDate(t1) && ValidDate(t2)
    requires ShouldSend(Some(deadline), t1, s1) && ShouldSend(Some(deadline), t2, s2)
    ensures t1 == t2
    ensures StrLess(deadline, FormatDate(t1)) && DaysBetween(deadline, FormatDate(t1)) == Some(1)
  {
    DayNumberOrder(t1, t2);
    FormatDateRoundTrip(t1);
    DateTextOrder(deadline, FormatDate(t1));
  }

  /** The message posted to the channel. */
  datatype FinalPost =
    | NoParticipantsPost   // "Challenge Complete! No participants in this challenge."
    | Results(deadline: Option<string>, lines: seq<Line>)
      // "Challenge ended on <deadline>" when one is set, then every ranked entry (none: "No results to display.")

  /** What `sendFinalLeaderboard` posts for the users, the mode and the stored deadline. */
  function FinalPostFor(users: seq<UserData>, mode: string, deadline: Option<string>): (p: FinalPost)
    ensures users == [] <==> p == NoParticipantsPost
    ensures p.Results? ==> p.deadline == deadline && |p.lines| == Participants(users)
    ensures p.Results? ==> forall k :: 0 <= k < |p.lines| ==>
      p.lines[k].medal == MedalFor(k) && p.lines[k].mode == mode
    ensures p.Results? ==> |p.lines| == |Rank(users, mode)| && forall k :: 0 <= k < |p.lines| ==> p.lines[k].entry == Rank(users, mode)[k]
  {
    EntriesCount(users, mode);
    if users == [] then NoParticipantsPost
    else Results(deadline, seq(|Rank(users, mode)|, k requires 0 <= k < |Rank(users, mode)| => Line(MedalFor(k), Rank(users, mode)[k], mode)))
  }

  /** The entries of the posted lines, top to bottom. */
  function PostedEntries(lines: seq<Line>): (r: seq<Entry>)
    ensures |r| == |lines| && forall k :: 0 <= k < |lines| ==> r[k] == lines[k].entry
  {
    seq(|lines|, k requires 0 <= k < |lines| => lines[k].entry)
  }

  /**
   * The final post lists the whole ranking: best first, each participant once, nobody cut off,
   * and participants with the same metric in sheet order.
   */
  lemma FinalPostListsEveryone(users: seq<UserData>, mode: string, deadline: Option<string>, v: real)
    requires users != []
    ensures var posted := PostedEntries(FinalPostFor(users, mode, deadline).lines);
      && posted == Rank(users, mode)
      && SortedDesc(posted, MetricKey)
      && multiset(posted) == multiset(Entries(users, mode))
      && WithKey(posted, MetricKey, v) == WithKey(Entries(users, mode), MetricKey, v)
  {
    PostedIsRank(users, mode, deadline);
    RankProperties(users, mode, v);
  }

  /** The posted lines carry the ranking, position by position. */
  lemma PostedIsRank(users: seq<UserData>, mode: string, deadline: Option<string>)
    requires users != []
    ensures PostedEntries(FinalPostFor(users, mode, deadline).lines) == Rank(users, mode)
  {
    var p := FinalPostFor(users, mode, deadline);
    assert PostedEntries(p.lines) == Rank(users, mode);
  }

  /**
   * `sendFinalLeaderboard`: without a channel nothing is posted and nothing changes; otherwise
   * the post is made and, only when Slack accepts it, the sent flag becomes `"true"`.
   */
  method SendFinalLeaderboard(store: Store, channel: string, mode: string, postAccepted: bool)
    returns (post: Option<FinalPost>)
    modifies store
    ensures channel == [] <==> post.None?
    ensures post.Some? ==> post.value == FinalPostFor(AllUsers(store.users), mode, ConfigLookup(old(store.config), DeadlineKey))
    ensures store.users == old(store.users)
    ensures store.config == if channel != [] && postAccepted then ConfigUpsert(old(store.config), FinalSentKey, SentValue) else old(store.config)
  {
    if channel == [] {
      return None;
    }
    var users := store.GetAllUsers();
    if |users| == 0 {
      post := Some(NoParticipantsPost);
      if postAccepted {
        store.SetConfigValue(FinalSentKey, SentValue);
      }
      return;
    }
    var leaderboard := CollectEntries(users, mode);
    var sorted := StableSortDesc(leaderboard, MetricKey);
    var deadline := store.GetDeadline();
    var lines := RankLines(sorted, mode);
    post := Some(Results(deadline, lines));
    if postAccepted {
      store.SetConfigValue(FinalSentKey, SentValue);
    }
  }

  /** Once a post has been accepted the gate stays shut on every later day, and the deadline is kept. */
  lemma SentGateStaysShut(config: seq<ConfigRow>, today: Date)
    ensures var config' := ConfigUpsert(config, FinalSentKey, SentValue);
      ConfigLookup(config', DeadlineKey) == ConfigLookup(config, DeadlineKey)
      && !ShouldSend(ConfigLookup(config', DeadlineKey), today, ConfigLookup(config', FinalSentKey))
  {
    LookupAfterUpsert(config, FinalSentKey, SentValue);
    UpsertOtherKeys(config, FinalSentKey, SentValue, DeadlineKey);
  }
}
