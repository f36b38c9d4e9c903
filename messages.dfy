/**
 * Message formatting decisions (src/utils/messages.js). Only the branch and
 * sign choices and the values shown are modelled; emoji, markdown and
 * `toFixed` rounding are display details.
 */
module Messages {
  import opened Wrappers

  /** The sign printed in front of a weight change. */
  datatype Sign = Minus | Plus

  /** `formatLeaderboardEntry`: `@username: <sign><amount>lbs (baseline→current)`. */
  datatype EntryText = EntryText(username: string, sign: Sign, amount: real, baseline: real, current: real)

  function Abs(x: real): (r: real)
    ensures r >= 0.0 && (r == x || r == -x)
  {
    if x < 0.0 then -x else x
  }

  /** `formatLeaderboardEntry`: a loss (positive `weightLost`) shows as `-`, anything else as `+` with the magnitude. */
  function FormatLeaderboardEntry(username: string, weightLost: real, baseline: real, current: real): (e: EntryText)
    ensures e.sign == Minus <==> weightLost > 0.0
    ensures e.amount >= 0.0
    ensures e.username == username && e.baseline == baseline && e.current == current
  {
    var sign := if weightLost > 0.0 then Minus else Plus;
    var amount := if weightLost > 0.0 then weightLost else Abs(weightLost);
    EntryText(username, sign, amount, baseline, current)
  }

  /** The signed number a reader sees: `-x` for `Minus`, `+x` for `Plus`. */
  function Shown(sign: Sign, amount: real): real
  {
    if sign == Minus then -amount else amount
  }

  /**
   * An entry reads as the change from baseline to current weight: the shown signed
   * amount is `current - baseline` whenever `weightLost = baseline - current`.
   * No loss at all shows as `+0`.
   */
  lemma EntryShowsChange(username: string, baseline: real, current: real)
    ensures var e := FormatLeaderboardEntry(username, baseline - current, baseline, current);
      Shown(e.sign, e.amount) == current - baseline
    ensures baseline == current ==> FormatLeaderboardEntry(username, 0.0, baseline, current).sign == Plus
  {
  }

  /** The line `formatChallengeStatus` produces. */
  datatype StatusLine =
    | NoDeadline                                 // "No deadline set for this challenge."
    | Ended(deadline: string, daysAgo: int)      // "Challenge ended on D. (N days ago)"
    | EndsToday(deadline: string)                // "Challenge ends today (D)!"
    | DaysRemaining(deadline: string, daysLeft: Option<int>)  // "Challenge deadline: D / Days remaining: N"

  /** A deadline JavaScript treats as set: neither `null` nor the empty text. */
  predicate DeadlineSet(deadline: Option<string>)
  {
    deadline.Some? && deadline.value != []
  }

  /**
   * `formatChallengeStatus(deadline, daysLeft)`; `daysLeft == None` stands for `NaN`,
   * which fails both numeric tests and lands in the "Days remaining" branch.
   */
  function ChallengeStatus(deadline: Option<string>, daysLeft: Option<int>): (s: StatusLine)
    ensures !DeadlineSet(deadline) ==> s == NoDeadline
    ensures DeadlineSet(deadline) ==> s != NoDeadline && s.deadline == deadline.value
    ensures s.Ended? <==> DeadlineSet(deadline) && daysLeft.Some? && daysLeft.value < 0
    ensures s.Ended? ==> s.daysAgo > 0 && s.daysAgo == -daysLeft.value
    ensures s.EndsToday? <==> DeadlineSet(deadline) && daysLeft == Some(0)
    ensures s.DaysRemaining? <==> DeadlineSet(deadline) && (daysLeft.None? || daysLeft.value > 0)
    ensures s.DaysRemaining? ==> s.daysLeft == daysLeft
  {
    if !DeadlineSet(deadline) then NoDeadline
    else if daysLeft.Some? && daysLeft.value < 0 then Ended(deadline.value, -daysLeft.value)
    else if daysLeft == Some(0) then EndsToday(deadline.value)
    else DaysRemaining(deadline.value, daysLeft)
  }
}
