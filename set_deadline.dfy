/**
 * The `/set-deadline` command (src/slashCommands/setDeadline.js). The
 * `ADMIN_IDS` variable is an input; the ephemeral response is the result.
 */
module SetDeadline {
  import opened Wrappers
  import opened Text
  import opened Validation
  import opened Sheets
  import opened Admin

  datatype Reply =
    | Unauthorized                 // "Unauthorized. This command is admin-only."
    | MissingDate                  // "Please provide a date."
    | InvalidDate(text: string)    // "Invalid date format: \"text\""
    | DeadlineSet(deadline: string)

  /**
   * `handleSetDeadline`: admin check, then a non-empty trimmed text, then the date check;
   * the deadline becomes the trimmed text. Dates in the past are accepted.
   */
  method HandleSetDeadline(store: Store, adminIds: string, userId: string, text: string) returns (reply: Reply)
    modifies store
    ensures store.users == old(store.users)
    ensures !reply.DeadlineSet? ==> store.config == old(store.config)
    ensures !IsAdmin(userId, adminIds) ==> reply == Unauthorized
    ensures IsAdmin(userId, adminIds) && Trim(text) == [] ==> reply == MissingDate
    ensures IsAdmin(userId, adminIds) && Trim(text) != [] && !ValidateDateFormat(Trim(text)) ==> reply == InvalidDate(Trim(text))
    ensures IsAdmin(userId, adminIds) && ValidateDateFormat(Trim(text)) ==>
      reply == DeadlineSet(Trim(text)) && store.config == ConfigUpsert(old(store.config), DeadlineKey, Trim(text))
  {
    var deadlineStr := Trim(text);
    if !IsAdmin(userId, adminIds) {
      return Unauthorized;
    }
    if deadlineStr == [] {
      return MissingDate;
    }
    if !ValidateDateFormat(deadlineStr) {
      return InvalidDate(deadlineStr);
    }
    store.SetDeadline(deadlineStr);
    return DeadlineSet(deadlineStr);
  }

  /**
   * What `/set-deadline` stores is read back by every later deadline lookup, and it is the
   * canonical text of a real date, so the text comparisons the other commands make on it are
   * calendar comparisons.
   */
  lemma StoredDeadlineIsCanonical(config: seq<ConfigRow>, text: string)
    requires ValidateDateFormat(Trim(text))
    ensures ConfigLookup(ConfigUpsert(config, DeadlineKey, Trim(text)), DeadlineKey) == Some(Trim(text))
    ensures ParseDate(Trim(text)).Some? && FormatDate(ParseDate(Trim(text)).value) == Trim(text)
  {
    TrimTrimmed(Trim(text));
    LookupAfterUpsert(config, DeadlineKey, Trim(text));
    ParseDateCanonical(Trim(text));
  }
}
