/**
 * The `checkin <weight>lbs` direct message (src/commands/checkin.js).
 * "Today" is an input; the reply posted to the user is the result.
 */
module Checkin {
  import opened Wrappers
  import opened Text
  import opened Validation
  import opened Sheets
  import opened WeightCheck
  import Messages

  /** The message posted back to the user. */
  datatype Reply =
    | DeadlinePassed(deadline: string)      // "The challenge deadline has passed (D)."
    | WeightTooLow
    | WeightTooHigh
    | InvalidFormat
    | NoBaseline                            // "No baseline weight found."
    | Recorded(weight: real, totalLost: real, sign: Messages.Sign, baseline: real, count: nat,
               daysUntilDeadline: Option<int>)

  /** `today > deadline`, the string comparison the handler makes. */
  predicate PastDeadline(deadline: Option<string>, todayText: string)
  {
    deadline.Some? && StrLess(deadline.value, todayText)
  }

  /** `Math.ceil((new Date(deadline) - new Date(today)) / day)` for two date texts, `None` for `NaN`. */
  function DaysUntil(todayText: string, deadline: string): (r: Option<int>)
    ensures r.Some? <==> ParseDate(todayText).Some? && ParseDate(deadline).Some?
    ensures r.Some? ==> r.value == DayNumber(ParseDate(deadline).value) - DayNumber(ParseDate(todayText).value)
  {
    match (ParseDate(todayText), ParseDate(deadline))
    case (Some(t), Some(d)) => Some(DayNumber(d) - DayNumber(t))
    case _ => None
  }

  /** The "Days until deadline" line: only with a deadline and a count that is not negative. */
  function DaysLine(deadline: Option<string>, todayText: string): (r: Option<int>)
    ensures r.Some? ==> deadline.Some? && r.value >= 0
  {
    if deadline.None? then None
    else
      var d := DaysUntil(todayText, deadline.value);
      if d.Some? && d.value >= 0 then d else None
  }

  /** `totalLost >= 0 ? '-' : '+'`. */
  function TotalLostSign(totalLost: real): (s: Messages.Sign)
    ensures s == Messages.Minus <==> totalLost >= 0.0
  {
    if totalLost >= 0.0 then Messages.Minus else Messages.Plus
  }

  /**
   * The check-in reply and the leaderboard entry choose the sign by different tests:
   * they agree on every change except no change at all, which the check-in shows as `-0.0`
   * and the leaderboard as `+0.0`.
   */
  lemma SignsDifferOnlyAtZero(totalLost: real, username: string, baseline: real, current: real)
    ensures TotalLostSign(totalLost) != Messages.FormatLeaderboardEntry(username, totalLost, baseline, current).sign
            <==> totalLost == 0.0
  {
  }

  /**
   * `handleCheckin`: the deadline check first, then the weight, then the baseline; on success
   * one check-in `(weight, today)` is added and the reply reports the stored totals.
   * Every refusal leaves the store as it was.
   */
  method HandleCheckin(store: Store, userId: string, text: string, today: Date) returns (reply: Reply)
    requires ValidDate(today)
    modifies store
    ensures store.config == old(store.config)
    ensures !reply.Recorded? ==> store.users == old(store.users)
    ensures var deadline := ConfigLookup(old(store.config), DeadlineKey);
      reply.DeadlinePassed? <==> PastDeadline(deadline, FormatDate(today))
    ensures reply.DeadlinePassed? ==>
      ConfigLookup(old(store.config), DeadlineKey).Some? && reply.deadline == ConfigLookup(old(store.config), DeadlineKey).value
    ensures !PastDeadline(ConfigLookup(old(store.config), DeadlineKey), FormatDate(today)) ==>
      (ClassifyWeight(text) == BelowMinimum ==> reply == WeightTooLow)
      && (ClassifyWeight(text) == AboveMaximum ==> reply == WeightTooHigh)
      && (ClassifyWeight(text) == BadFormat ==> reply == InvalidFormat)
    ensures reply.NoBaseline? <==>
      !PastDeadline(ConfigLookup(old(store.config), DeadlineKey), FormatDate(today))
      && ClassifyWeight(text).Accepted?
      && (UserDataOf(old(store.users), userId).None? || !HasBaseline(UserDataOf(old(store.users), userId).value.baseline))
    ensures !PastDeadline(ConfigLookup(old(store.config), DeadlineKey), FormatDate(today))
      && ClassifyWeight(text).Accepted?
      && UserDataOf(old(store.users), userId).Some?
      && HasBaseline(UserDataOf(old(store.users), userId).value.baseline)
      ==> reply.Recorded?
    ensures reply.Recorded? ==>
      ClassifyWeight(text) == Accepted(reply.weight)
      && store.users == CheckinUpdate(old(store.users), userId, reply.weight, FormatDate(today)).value
      && UserDataOf(old(store.users), userId).Some? && UserDataOf(store.users, userId).Some?
    ensures reply.Recorded? ==>
      var before := UserDataOf(old(store.users), userId).value;
      var after := UserDataOf(store.users, userId).value;
      var deadline := ConfigLookup(old(store.config), DeadlineKey);
      after.checkins == before.checkins + [Checkin(reply.weight, FormatDate(today))]
      && reply.count == |after.checkins|
      && reply.baseline == before.baseline.value
      && reply.totalLost == reply.baseline - reply.weight
      && reply.sign == TotalLostSign(reply.totalLost)
      && reply.daysUntilDeadline == DaysLine(deadline, FormatDate(today))
  {
    var deadline := store.GetDeadline();
    var todayText := FormatDate(today);
    if deadline.Some? && StrLess(deadline.value, todayText) {
      return DeadlinePassed(deadline.value);
    }
    var check := ClassifyWeight(text);
    match check {
      case BelowMinimum => return WeightTooLow;
      case AboveMaximum => return WeightTooHigh;
      case BadFormat => return InvalidFormat;
      case Accepted(weight) =>
        var userData := store.GetUserData(userId);
        if userData.None? || !HasBaseline(userData.value.baseline) {
          return NoBaseline;
        }
        ghost var rows := store.users;
        var r := store.AddCheckin(userId, weight, todayText);
        // The store repeats the two checks just made, so its errors cannot occur here.
        assert r.Ok?;
        CheckinAppends(rows, userId, weight, todayText);
        var updated := store.GetUserData(userId);
        var baseline := updated.value.baseline.value;
        var totalLost := baseline - weight;
        var checkinCount := |updated.value.checkins|;
        var days := DaysLine(deadline, todayText);
        return Recorded(weight, totalLost, TotalLostSign(totalLost), baseline, checkinCount, days);
    }
  }

  /**
   * With a deadline that is a date, the text comparison is the calendar one: check-ins
   * are refused exactly on the days after the deadline, and the deadline day itself is accepted.
   */
  lemma DeadlineIsChronological(deadline: string, today: Date)
    requires ParseDate(deadline).Some? && ValidDate(today)
    ensures PastDeadline(Some(deadline), FormatDate(today)) <==> DayNumber(ParseDate(deadline).value) < DayNumber(today)
    ensures deadline == FormatDate(today) ==> !PastDeadline(Some(deadline), FormatDate(today))
  {
    FormatDateRoundTrip(today);
    DateTextOrder(deadline, FormatDate(today));
  }

  /** The "Days until deadline" line appears exactly when the deadline is a date not before today, and counts the days to it. */
  lemma DaysLineCounts(deadline: string, today: Date)
    requires ValidDate(today)
    ensures DaysLine(Some(deadline), FormatDate(today)).Some? <==>
      ParseDate(deadline).Some? && DayNumber(ParseDate(deadline).value) >= DayNumber(today)
    ensures DaysLine(Some(deadline), FormatDate(today)).Some? ==>
      DaysLine(Some(deadline), FormatDate(today)).value == DayNumber(ParseDate(deadline).value) - DayNumber(today)
  {
    FormatDateRoundTrip(today);
    DaysLineFromParsed(deadline, FormatDate(today), today);
  }

  /** `DaysLine` from a today text that parses, to any deadline text. */
  lemma DaysLineFromParsed(deadline: string, todayText: string, today: Date)
    requires ParseDate(todayText) == Some(today)
    ensures DaysLine(Some(deadline), todayText).Some? <==>
      ParseDate(deadline).Some? && DayNumber(ParseDate(deadline).value) >= DayNumber(today)
    ensures DaysLine(Some(deadline), todayText).Some? ==>
      DaysLine(Some(deadline), todayText).value == DayNumber(ParseDate(deadline).value) - DayNumber(today)
  {
  }
}
