/**
 * The `/challenge-status` command (src/slashCommands/challengeStatus.js):
 * a read-only derivation of the status line from the stored deadline and today.
 */
module ChallengeStatus {
  import opened Wrappers
  import opened Validation
  import opened Sheets
  import opened Messages

  datatype Reply =
    | NoDeadlineSet              // "No deadline has been set for this challenge."
    | Status(line: StatusLine)   // `formatChallengeStatus(deadline, daysLeft)`

  /** The reply for a stored deadline (or none) on a given day. */
  function StatusFor(deadline: Option<string>, today: Date): (r: Reply)
    requires ValidDate(today)
    ensures !DeadlineSet(deadline) <==> r == NoDeadlineSet
  {
    if !DeadlineSet(deadline) then NoDeadlineSet
    else Status(ChallengeStatus(deadline, DaysBetween(FormatDate(today), deadline.value)))
  }

  /** `handleChallengeStatus`: read the deadline, and without one answer with the fixed text. */
  method HandleChallengeStatus(store: Store, today: Date) returns (reply: Reply)
    requires ValidDate(today)
    ensures reply == StatusFor(ConfigLookup(store.config, DeadlineKey), today)
  {
    var deadline := store.GetDeadline();
    if deadline.None? || deadline.value == [] {
      return NoDeadlineSet;
    }
    var todayText := FormatDate(today);
    var daysLeft := DaysBetween(todayText, deadline.value);
    return Status(ChallengeStatus(deadline, daysLeft));
  }

  /**
   * `daysBetween` is never negative, so the "ended" status is never shown: a deadline in
   * the past reads "Days remaining: N" with N the days since it, the deadline day reads
   * "ends today", and a deadline that is no date shows `NaN` days remaining.
   */
  lemma StatusOfDeadline(deadline: string, today: Date)
    requires ValidDate(today) && deadline != []
    ensures !StatusFor(Some(deadline), today).line.Ended?
    ensures ParseDate(deadline).None? ==> StatusFor(Some(deadline), today) == Status(DaysRemaining(deadline, None))
    ensures ParseDate(deadline).Some? ==>
      var n := DayNumber(ParseDate(deadline).value) - DayNumber(today);
      (n == 0 <==> StatusFor(Some(deadline), today) == Status(EndsToday(deadline)))
      && (n != 0 ==> StatusFor(Some(deadline), today) == Status(DaysRemaining(deadline, Some(if n < 0 then -n else n))))
  {
    DaysFromToday(deadline, today);
    if ParseDate(deadline).Some? {
      DayNumberOrder(ParseDate(deadline).value, today);
    }
  }

  /** The day count the handler computes, in terms of the parsed deadline alone. */
  lemma DaysFromToday(deadline: string, today: Date)
    requires ValidDate(today)
    ensures ParseDate(deadline).None? ==> DaysBetween(FormatDate(today), deadline).None?
    ensures ParseDate(deadline).Some? ==>
      var n := DayNumber(ParseDate(deadline).value) - DayNumber(today);
      DaysBetween(FormatDate(today), deadline) == Some(if n < 0 then -n else n)
  {
    FormatDateRoundTrip(today);
    DaysFromParsed(FormatDate(today), deadline, today);
  }

  /** `daysBetween` from a date text that parses, to any other text. */
  lemma DaysFromParsed(a: string, b: string, da: Date)
    requires ParseDate(a) == Some(da)
    ensures ParseDate(b).None? ==> DaysBetween(a, b).None?
    ensures ParseDate(b).Some? ==>
      var n := DayNumber(ParseDate(b).value) - DayNumber(da);
      DaysBetween(a, b) == Some(if n < 0 then -n else n)
  {
  }
}
