/**
 * The `/reset-challenge` command (src/slashCommands/resetChallenge.js).
 * `ADMIN_IDS` and `FITNESS_CHANNEL` are inputs (the empty text means unset);
 * the posts made are the result.
 */
module ResetChallenge {
  import opened Wrappers
  import opened Sheets
  import opened Admin

  datatype Reply =
    | Unauthorized     // ephemeral "Unauthorized. This command is admin-only."
    | ChannelMissing   // ephemeral "FITNESS_CHANNEL environment variable not configured."
    | Reset(channel: string)  // announcement posted to the channel, then an ephemeral confirmation

  /**
   * `handleResetChallenge`: the admin and channel checks come before any change; on success
   * every user row is cleared and `final_leaderboard_sent` becomes `"false"`.
   */
  method HandleResetChallenge(store: Store, adminIds: string, userId: string, channel: string) returns (reply: Reply)
    modifies store
    ensures !IsAdmin(userId, adminIds) ==> reply == Unauthorized
    ensures IsAdmin(userId, adminIds) && channel == [] ==> reply == ChannelMissing
    ensures !reply.Reset? ==> store.users == old(store.users) && store.config == old(store.config)
    ensures IsAdmin(userId, adminIds) && channel != [] ==>
      reply == Reset(channel) && store.users == []
      && store.config == ConfigUpsert(old(store.config), FinalSentKey, "false")
  {
    if !IsAdmin(userId, adminIds) {
      return Unauthorized;
    }
    if channel == [] {
      return ChannelMissing;
    }
    store.ResetChallenge();
    store.SetConfigValue(FinalSentKey, "false");
    return Reset(channel);
  }

  /** A reset leaves the deadline and every other setting as they read before; only the flag changes, to `"false"`. */
  lemma ResetKeepsSettings(config: seq<ConfigRow>, key: string)
    requires key != FinalSentKey
    ensures ConfigLookup(ConfigUpsert(config, FinalSentKey, "false"), key) == ConfigLookup(config, key)
    ensures ConfigLookup(ConfigUpsert(config, FinalSentKey, "false"), FinalSentKey) == Some("false")
  {
    UpsertOtherKeys(config, FinalSentKey, "false", key);
    LookupAfterUpsert(config, FinalSentKey, "false");
  }

  /** After a reset nobody has a baseline, so every user may set one again. */
  lemma ResetAllowsNewBaselines(slackId: string, username: string, weight: real, date: string)
    ensures BaselineUpdate([], slackId, username, weight, date) == Ok([NewUserRow(slackId, username, weight, date)])
    ensures AllUsers([]) == []
  {
    var row := NewUserRow(slackId, username, weight, date);
    assert [] + [row] == [row];
  }
}
