/**
 * The start-challenge modal submission (src/slashCommands/startChallenge.js:123-367).
 *
 * `ADMIN_IDS`, `FITNESS_CHANNEL`, the form values and "today" are inputs. Whether a
 * competition is already active, and the writes of the mode and start date, go
 * through store functions whose definitions are not part of this model: the first
 * is an input, the other two are reported in the result instead of being stored.
 */
module StartChallenge {
  import opened Wrappers
  import opened Text
  import opened Validation
  import opened Sheets
  import opened Admin

  /** The modal block an error is attached to. */
  datatype Block = ModeBlock | EndDateBlock

  datatype StartError =
    | Unauthorized       // "Unauthorized. This command is admin-only."
    | ModeMissing        // "Please select a competition mode."
    | ModeInvalid        // "Invalid competition mode selected."
    | EndDateMissing     // "Please select an end date."
    | EndDateInvalid     // "Invalid date format. Please use YYYY-MM-DD format."
    | EndDateNotFuture   // "End date must be in the future."
    | AlreadyActive      // "A competition is already active with participants. …"

  /** The block each error is shown on. */
  function ErrorBlock(e: StartError): (b: Block)
    ensures b == EndDateBlock <==> e == EndDateMissing || e == EndDateInvalid || e == EndDateNotFuture
  {
    match e
    case EndDateMissing => EndDateBlock
    case EndDateInvalid => EndDateBlock
    case EndDateNotFuture => EndDateBlock
    case _ => ModeBlock
  }

  /** The announcement `formatStartAnnouncement` writes, without its fixed text. */
  datatype Announcement = Announcement(
    percentageMode: bool,          // "Percentage Weight Loss (%)" or "Total Weight Loss (pounds)"
    startDate: string,
    endDate: string,
    durationDays: Option<nat>,     // `None` is the `NaN` of unparseable dates
    percentageExample: bool)       // the "Example: … 5% weight loss" tip

  /** `formatStartAnnouncement(mode, startDate, endDate)`. */
  function StartAnnouncement(mode: string, startDate: string, endDate: string): (a: Announcement)
    ensures a.percentageMode <==> mode == "percentage"
    ensures a.percentageExample <==> mode == "percentage"
    ensures a.startDate == startDate && a.endDate == endDate
    ensures a.durationDays == DaysBetween(startDate, endDate)
  {
    Announcement(mode == "percentage", startDate, endDate, DaysBetween(startDate, endDate), mode == "percentage")
  }

  datatype Reply =
    | Rejected(error: StartError)
    | Started(mode: string, startDate: string, endDate: string, announcement: Option<Announcement>)

  /** `!modeSelection || !modeSelection.value`: nothing chosen, or an empty value. */
  predicate Missing(v: Option<string>)
  {
    v.None? || v.value == []
  }

  /** `endDateValue <= today` on strings. */
  predicate NotAfter(endDate: string, todayText: string)
  {
    !StrLess(todayText, endDate)
  }

  /** The first failing check of the submission, in the order the handler makes them. */
  function FirstError(adminIds: string, userId: string, mode: Option<string>, endDate: Option<string>,
                      todayText: string, hasActive: bool): (r: Option<StartError>)
    ensures !IsAdmin(userId, adminIds) ==> r == Some(Unauthorized)
    ensures r.None? <==>
      (!Missing(mode) && (mode.value == "total" || mode.value == "percentage")
       && !Missing(endDate) && ValidateDateFormat(endDate.value)
       && StrLess(todayText, endDate.value) && !hasActive && IsAdmin(userId, adminIds))
  {
    if !IsAdmin(userId, adminIds) then Some(Unauthorized)
    else if Missing(mode) then Some(ModeMissing)
    else if mode.value != "total" && mode.value != "percentage" then Some(ModeInvalid)
    else if Missing(endDate) then Some(EndDateMissing)
    else if !ValidateDateFormat(endDate.value) then Some(EndDateInvalid)
    else if NotAfter(endDate.value, todayText) then Some(EndDateNotFuture)
    else if hasActive then Some(AlreadyActive)
    else None
  }

  /**
   * `handleStartChallengeSubmit`: the checks in order, the first failure alone reported with
   * nothing written; on success the deadline becomes the end date and `final_leaderboard_sent`
   * becomes `"false"`, and the announcement is posted only when a channel is configured.
   */
  method HandleStartChallengeSubmit(store: Store, adminIds: string, userId: string,
                                    mode: Option<string>, endDate: Option<string>, today: Date,
                                    hasActive: bool, channel: string)
    returns (reply: Reply)
    requires ValidDate(today)
    modifies store
    ensures store.users == old(store.users)
    ensures var e := FirstError(adminIds, userId, mode, endDate, FormatDate(today), hasActive);
      e.Some? ==> reply == Rejected(e.value) && store.config == old(store.config)
    ensures FirstError(adminIds, userId, mode, endDate, FormatDate(today), hasActive).None? ==>
      reply.Started? && reply.mode == mode.value && reply.startDate == FormatDate(today) && reply.endDate == endDate.value
      && store.config == ConfigUpsert(ConfigUpsert(old(store.config), DeadlineKey, endDate.value), FinalSentKey, "false")
      && (reply.announcement.Some? <==> channel != [])
      && (channel != [] ==> reply.announcement.value == StartAnnouncement(mode.value, FormatDate(today), endDate.value))
  {
    if !IsAdmin(userId, adminIds) {
      return Rejected(Unauthorized);
    }
    if mode.None? || mode.value == [] {
      return Rejected(ModeMissing);
    }
    var m := mode.value;
    if m != "total" && m != "percentage" {
      return Rejected(ModeInvalid);
    }
    if endDate.None? || endDate.value == [] {
      return Rejected(EndDateMissing);
    }
    var end := endDate.value;
    if !ValidateDateFormat(end) {
      return Rejected(EndDateInvalid);
    }
    var todayText := FormatDate(today);
    if !StrLess(todayText, end) {
      return Rejected(EndDateNotFuture);
    }
    if hasActive {
      return Rejected(AlreadyActive);
    }
    var startDate := todayText;
    store.SetDeadline(end);
    store.SetConfigValue(FinalSentKey, "false");
    var announcement: Option<Announcement> := None;
    if channel != [] {
      announcement := Some(StartAnnouncement(m, startDate, end));
    }
    return Started(m, startDate, end, announcement);
  }

  /**
   * For an end date written as a date, the "in the future" test is the calendar one:
   * today and earlier days are refused, later days pass.
   */
  lemma FutureTestIsChronological(endDate: string, today: Date)
    requires ParseDate(endDate).Some? && ValidDate(today)
    ensures NotAfter(endDate, FormatDate(today)) <==> DayNumber(ParseDate(endDate).value) <= DayNumber(today)
  {
    FormatDateRoundTrip(today);
    DateTextOrder(FormatDate(today), endDate);
  }

  /**
   * An end date that passes the future test and is a date text gives a positive duration:
   * the number of days from today to it.
   */
  lemma StartedDuration(mode: string, endDate: string, today: Date)
    requires ValidDate(today) && ParseDate(endDate).Some?
    requires !NotAfter(endDate, FormatDate(today))
    ensures var a := StartAnnouncement(mode, FormatDate(today), endDate);
      a.durationDays.Some? && a.durationDays.value > 0
      && a.durationDays.value == DayNumber(ParseDate(endDate).value) - DayNumber(today)
  {
    FormatDateRoundTrip(today);
    FutureTestIsChronological(endDate, today);
  }

  /** After a start, the deadline reads as the end date and the final-leaderboard flag as `"false"`. */
  lemma StartedConfig(config: seq<ConfigRow>, endDate: string)
    requires endDate != []
    ensures var config' := ConfigUpsert(ConfigUpsert(config, DeadlineKey, endDate), FinalSentKey, "false");
      ConfigLookup(config', DeadlineKey) == Some(endDate) && ConfigLookup(config', FinalSentKey) == Some("false")
  {
    LookupAfterUpsert(config, DeadlineKey, endDate);
    var c1 := ConfigUpsert(config, DeadlineKey, endDate);
    UpsertOtherKeys(c1, FinalSentKey, "false", DeadlineKey);
    LookupAfterUpsert(c1, FinalSentKey, "false");
  }
}
