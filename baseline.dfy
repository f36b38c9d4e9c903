/**
 * The `baseline <weight>lbs` direct message (src/commands/baseline.js).
 * The username `users.info` returns and the day the clock gives are inputs;
 * the reply posted to the user is the result.
 */
module Baseline {
  import opened Wrappers
  import opened Validation
  import opened Sheets
  import opened WeightCheck

  /** The message posted back to the user. */
  datatype Reply =
    | WeightTooLow                          // "Weight must be at least 100lbs."
    | WeightTooHigh                         // "Weight must be 1000lbs or less."
    | InvalidFormat                         // "Invalid format. Please use: `baseline 200lbs`"
    | AlreadyHasBaseline(stored: NumCell, storedDate: string)  // quotes the stored weight and date
    | BaselineSaved(weight: real, date: string)          // echoes the weight and today's date

  /**
   * `handleBaseline`: classify the weight, refuse a user whose stored baseline is not `null`,
   * otherwise store `(weight, today)`. Every refusal leaves the store as it was.
   */
  method HandleBaseline(store: Store, userId: string, text: string, username: string, today: Date)
    returns (reply: Reply)
    requires ValidDate(today)
    modifies store
    ensures store.config == old(store.config)
    ensures !reply.BaselineSaved? ==> store.users == old(store.users)
    ensures ClassifyWeight(text) == BelowMinimum ==> reply == WeightTooLow
    ensures ClassifyWeight(text) == AboveMaximum ==> reply == WeightTooHigh
    ensures ClassifyWeight(text) == BadFormat ==> reply == InvalidFormat
    ensures ClassifyWeight(text).Accepted? ==>
      var existing := UserDataOf(old(store.users), userId);
      if existing.Some? && existing.value.baseline != Blank then
        reply == AlreadyHasBaseline(existing.value.baseline, existing.value.baselineDate)
      else
        var w := ClassifyWeight(text).weight;
        reply == BaselineSaved(w, FormatDate(today))
        && store.users == BaselineUpdate(old(store.users), userId, username, w, FormatDate(today)).value
  {
    var check := ClassifyWeight(text);
    match check {
      case BelowMinimum => return WeightTooLow;
      case AboveMaximum => return WeightTooHigh;
      case BadFormat => return InvalidFormat;
      case Accepted(weight) =>
        var existing := store.GetUserData(userId);
        if existing.Some? && existing.value.baseline != Blank {
          return AlreadyHasBaseline(existing.value.baseline, existing.value.baselineDate);
        }
        var todayText := FormatDate(today);
        var r := store.SetBaseline(userId, username, weight, todayText);
        // The store repeats the check just made, so its "already set" error cannot occur here.
        assert r.Ok?;
        return BaselineSaved(weight, todayText);
    }
  }

  /**
   * A saved baseline is read back as `(weight, today)` with a canonical date, and the
   * next `baseline` message from the same user is refused quoting it.
   */
  lemma SavedBaselineIsFinal(rows: seq<UserRow>, userId: string, username: string, weight: real, today: Date,
                             username2: string, weight2: real, date2: string)
    requires ValidDate(today)
    requires BaselineUpdate(rows, userId, username, weight, FormatDate(today)).Ok?
    ensures var rows' := BaselineUpdate(rows, userId, username, weight, FormatDate(today)).value;
      var u := UserDataOf(rows', userId);
      u.Some? && u.value.baseline == Number(weight)
      && ParseDate(u.value.baselineDate) == Some(today)
      && BaselineUpdate(rows', userId, username2, weight2, date2).Err?
  {
    BaselineSetOnce(rows, userId, username, weight, FormatDate(today), username2, weight2, date2);
    FormatDateRoundTrip(today);
  }
}
