# Weight-loss challenge bot, modelled in Dafny

This project models the core of a Slack bot that runs a weight-loss challenge. The bot keeps its state in a Google spreadsheet:

- a `Users` sheet: one row per participant, holding the baseline weight, the check-ins as JSON text, the total lost and the latest check-in date;
- a `Config` sheet of key/value rows (`deadline`, `final_leaderboard_sent`).

Participants send `baseline 200lbs` and `checkin 185lbs` as direct messages. Admins (listed in `ADMIN_IDS`) set a deadline, start a challenge or reset it. Anyone can post the leaderboard and ask for the challenge status. The day after the deadline, the bot posts a final leaderboard once.

The project has one module per source file:

| module | file | models |
|---|---|---|
| `Wrappers` | `wrappers.dfy` | `Option` and `Result` |
| `Text` | `text.dfy` | the JavaScript string operations the bot uses (`trim`, `split`, `toLowerCase`, `startsWith`, `<` on strings, decimal digits) |
| `Validation` | `validation.dfy` | `src/utils/validation.js`: the weight regex and `parseWeight`, `validateDateFormat`, `formatDate`, `daysBetween`, on a proleptic Gregorian calendar |
| `Admin` | `admin.dfy` | `src/utils/admin.js` |
| `Messages` | `messages.dfy` | `src/utils/messages.js`: which sign and which status line is chosen |
| `Sheets` | `sheets.dfy` | `src/services/sheets.js` |
| `Ranking` | `ranking.dfy` | the leaderboard aggregation shared by `leaderboard.js` and `finalLeaderboard.js` |
| `WeightCheck` | `weight_check.dfy` | the weight-reply branches common to both DM handlers |
| `Baseline`, `Checkin` | `baseline.dfy`, `checkin.dfy` | the DM command handlers |
| `SetDeadline`, `ResetChallenge`, `StartChallenge`, `ChallengeStatus`, `LeaderboardCommand` | one file each | the slash commands and the start-challenge modal submission |
| `FinalLeaderboard` | `final_leaderboard.dfy` | `src/services/finalLeaderboard.js` |
| `DmRouting` | `dm_routing.dfy` | the message routing of `src/index.js` |

How `sheets.js` is modelled:

- The spreadsheet is the class `Sheets.Store`. Its fields are the `Users` rows and the `Config` rows.
- Each store operation is a method. Its loop is proved against a pure function on the rows: `UserDataOf`, `FindUser`, `BaselineUpdate`, `CheckinUpdate`, `AllUsers`, `ConfigLookup`, `ConfigUpsert`.
- The properties of the bot are lemmas about those functions.
- A row index is the 0-based position in the rows below the header. The method that returns a sheet row number adds 2.

How the handlers are modelled:

- Each handler is a method on the store. It returns a reply datatype that records the branch taken and the values shown to the user.
- Inputs replace Slack, the clock and the environment:
  - "today" is a valid calendar `Date` whose text is `FormatDate(today)`;
  - the user id, the message text and the username from `users.info` are inputs;
  - `ADMIN_IDS` and `FITNESS_CHANNEL` are texts, and an unset variable is the empty text.
- The competition mode and the "has an active competition" answer are inputs, and so is whether Slack accepted the final post. They come from functions the store module calls but does not define (`getCompetitionMode`, `hasActiveCompetition`).
- `setCompetitionMode` and `setCompetitionStartDate` are also called but not defined. Their writes are reported in the start-challenge reply and are not applied to the store.

## Model

| member | source | states |
|---|---|---|
| Text.TrimAbsorbsPadding | src/index.js:132 | white space around any text is removed along with the text's own leading and trailing white space |
| Text.NatToDecimalValue | src/utils/validation.js:106-108 | the decimal text of a number reads back as that number |
| Text.JoinSplit | src/utils/admin.js:21 | joining the parts of a split with the separator gives the original text back |
| Text.SplitJoin | src/utils/admin.js:21 | splitting a join of separator-free parts gives those parts back |
| Text.FixedWidthDigitsOrder | src/commands/checkin.js:22 | for digit texts of equal length, text order is numeric order, and equal texts have equal values |
| Validation.DayNumberOrder | src/utils/validation.js:85-96 | day numbers order valid dates as the calendar does, and two valid dates with the same day number are the same date |
| Validation.ParseDate | src/utils/validation.js:52-96 | a parsed date matches `YYYY-MM-DD` exactly and is a real calendar date with a four-digit year |
| Validation.ValidateDateFormat | src/utils/validation.js:43-97 | accepted text is non-empty and, once trimmed, matches the pattern and names a real date |
| Validation.ValidateDateFormatPadded | src/utils/validation.js:49-53 | every real date, rendered and padded with white space, is accepted |
| Validation.ValidateDateFormatRejectsUnpadded | src/utils/validation.js:49-55 | any text whose trimmed form is not exactly ten characters is rejected, so an unpadded month or day (`2024-2-5`) fails |
| Validation.ValidateDateFormatRejectsLetters | src/utils/validation.js:49-55 | any text with a non-digit at a year, month or day position of its trimmed form (`abcd-ef-gh`) is rejected |
| Validation.ValidateDateFormatChecksCalendar | src/utils/validation.js:74-96 | for every text of the `YYYY-MM-DD` shape: a day past the end of its month (`2026-02-30`) is rejected, and 29 February is accepted exactly in a leap year |
| Validation.FormatDateRoundTrip | src/utils/validation.js:104-109 | the text `formatDate` gives for a real date parses back to that date, needs no trimming and is accepted |
| Validation.ParseDateCanonical | src/utils/validation.js:52-96 | a text that parses is exactly the rendering of its date, so date texts and dates correspond one to one |
| Validation.DateTextOrder | src/commands/checkin.js:22 | for two date texts, `<` on the text is chronological order and text equality is date equality |
| Validation.DaysBetween | src/utils/validation.js:125-131 | defined exactly when both texts are dates; then it is the absolute number of days between them |
| Validation.DaysBetweenMetric | src/utils/validation.js:125-131 | `daysBetween` is symmetric and zero exactly for the same date |
| Validation.MatchWeight | src/utils/validation.js:16-17 | the match starts at the leftmost position where the number-then-`lb`/`lbs` pattern holds; none exists when the pattern holds nowhere |
| Validation.ParseWeight | src/utils/validation.js:10-36 | a result exists exactly when the text matches and the matched number is within 100..1000, and it is that number |
| Validation.ParseWeightOfNumber | src/utils/validation.js:16-35 | a digit-free prefix, then a number in 100..1000, white space and `lb`/`lbs` in any letter case, parses to that number |
| Admin.TrimAll | src/utils/admin.js:21 | each admin list entry is the trimmed comma-separated piece |
| Admin.IsAdmin | src/utils/admin.js:10-23 | an empty user id or an unset admin list is never an admin; otherwise admin exactly when some trimmed comma-separated entry equals the id |
| Admin.AdminIdsAreTrimmed | src/utils/admin.js:21-22 | only non-empty ids without surrounding white space can be admins |
| Admin.ListedIsAdmin | src/utils/admin.js:15-22 | every user written, possibly padded, into a comma-joined admin list is recognised as an admin |
| Messages.FormatLeaderboardEntry | src/utils/messages.js:13-19 | the entry shows a minus sign exactly when weight was lost, with a non-negative amount and the baseline and current weights unchanged |
| Messages.EntryShowsChange | src/utils/messages.js:14-18 | the signed amount shown is the current weight minus the baseline, and no change shows `+` |
| Messages.ChallengeStatus | src/utils/messages.js:27-39 | no deadline gives the fixed text whatever the day count; otherwise negative, zero and other counts (NaN included) give the ended, today and remaining lines, with the count shown |
| Sheets.DecodeEncode | src/services/sheets.js:79-90 | decoding the stored JSON check-in list gives the recorded check-ins back |
| Sheets.ValidCheckinsAppend | src/services/sheets.js:83-86 | dropping check-ins whose weight is not a number works element by element, so appending commutes with decoding |
| Sheets.DecodeRow | src/services/sheets.js:93-103 | a row decodes with its id, baseline cell and decoded check-ins; an empty total-lost cell reads as 0 |
| Sheets.FindUser | src/services/sheets.js:76-77 | the first row with the id, or none when no row has it |
| Sheets.UserDataOf | src/services/sheets.js:65-112 | a user is found exactly when some row has the id, and the data is the decoding of the first such row |
| Sheets.BaselineUpdate | src/services/sheets.js:150-188 | fails with the "already has a baseline" error exactly when the user's row has a non-empty baseline cell; otherwise fills that row's name, baseline and date, or appends a new row with an empty list and a total of 0 |
| Sheets.BaselineSetOnce | src/services/sheets.js:155-182 | after a baseline is set, the user is found with that baseline and date, and a second attempt fails |
| Sheets.CheckinUpdate | src/services/sheets.js:196-236 | fails with "User not found" when no row has the id, with "No baseline weight set" when the baseline is empty, NaN or 0, and otherwise keeps the number of rows |
| Sheets.CheckinAppends | src/services/sheets.js:211-231 | after a check-in the user reads back with the old check-ins plus the new one, the total lost is baseline minus the new weight, the latest date is the new date, and every other row is unchanged |
| Sheets.AllUsers | src/services/sheets.js:242-296 | every listed user has a numeric baseline and there are no more users than rows |
| Sheets.AllUsersMembers | src/services/sheets.js:254-291 | a user is listed exactly when some row with a numeric baseline decodes to it |
| Sheets.AllUsersAppend | src/services/sheets.js:254-291 | the listing works row by row, in sheet order |
| Sheets.ConfigIndex | src/services/sheets.js:452 | the first config row with the key, or none when no row has it |
| Sheets.ConfigLookup | src/services/sheets.js:409-434 | a value is found exactly when some row has the key and a non-empty value, and it is the value of the first such row |
| Sheets.LookupAfterUpsert | src/services/sheets.js:441-479 | after a key is set to a non-empty value, reading the key gives exactly that value |
| Sheets.UpsertOtherKeys | src/services/sheets.js:452-474 | setting one key leaves what every other key reads unchanged |
| Sheets.UpsertNoDuplicate | src/services/sheets.js:452-474 | setting a key never creates a second row for it: a missing key gets one row, an existing key keeps its row count |
| Sheets.Store.GetUserData | src/services/sheets.js:65-112 | the loop returns the decoded first row with the id, or none |
| Sheets.Store.FindUserRowIndex | src/services/sheets.js:119-141 | the sheet row number (index plus 2) of the first row with the id, or none |
| Sheets.Store.SetBaseline | src/services/sheets.js:150-188 | the rows become the baseline update, or stay unchanged with the "already has a baseline" error; config is untouched |
| Sheets.Store.AddCheckin | src/services/sheets.js:196-236 | the rows become the check-in update, or stay unchanged with the user-not-found or no-baseline error; config is untouched |
| Sheets.Store.GetAllUsers | src/services/sheets.js:242-296 | the loop returns the users with a numeric baseline, in sheet order |
| Sheets.Store.ResetChallenge | src/services/sheets.js:301-326 | every user row is cleared and config is untouched |
| Sheets.Store.GetConfigValue | src/services/sheets.js:409-434 | the loop returns the value of the first row with the key and a non-empty value |
| Sheets.Store.SetConfigValue | src/services/sheets.js:441-479 | the first row with the key is overwritten, or a row is appended; users are untouched |
| Sheets.Store.GetDeadline | src/services/sheets.js:376-402 | the stored deadline is the config value under `deadline` |
| Sheets.Store.SetDeadline | src/services/sheets.js:332-370 | the `deadline` row is overwritten or appended; users are untouched |
| Ranking.InsertSorted | src/slashCommands/leaderboard.js:100 | inserting into a list ordered by descending metric keeps it ordered |
| Ranking.SortIsSorted | src/slashCommands/leaderboard.js:100 | the sort orders entries by metric, best first |
| Ranking.SortIsPermutation | src/slashCommands/leaderboard.js:100 | the sort neither loses nor adds entries |
| Ranking.SortIsStable | src/slashCommands/leaderboard.js:100 | entries with equal metrics keep their sheet order |
| Ranking.SortHead | src/services/finalLeaderboard.js:126 | the winner is the first entry, in sheet order, with the highest metric |
| Ranking.CurrentWeightIsLatest | src/slashCommands/leaderboard.js:60-76 | with check-ins, the current weight is the weight of a check-in with the latest date |
| Ranking.EntryOf | src/slashCommands/leaderboard.js:51-95 | a user gets an entry exactly when their baseline is a positive number; weight lost is baseline minus current, and the metric is that loss or that loss as a percentage of the baseline |
| Ranking.EntriesCount | src/slashCommands/leaderboard.js:49-97 | the ranking has one entry per user with a positive baseline |
| Ranking.EntriesFromUsers | src/services/finalLeaderboard.js:78-123 | every entry comes from some user |
| Ranking.RankProperties | src/slashCommands/leaderboard.js:49-100 | the ranking is ordered best first, is a permutation of the entries, has one entry per participant and keeps sheet order among ties |
| Ranking.Top | src/slashCommands/leaderboard.js:103 | the shown list is the first `min(n, length)` entries of the ranking |
| Ranking.MedalFor | src/slashCommands/leaderboard.js:120-123 | places 1 to 3 get medals: index 0 gold, index 1 silver, index 2 bronze, each exactly there; later places show their 1-based number |
| Ranking.CollectEntries | src/slashCommands/leaderboard.js:49-97 | the aggregation loop builds exactly the entry list of the users |
| Ranking.RankLines | src/slashCommands/leaderboard.js:120-124 | one line per entry, in order, with the medal for its position |
| WeightCheck.ClassifyWeight | src/commands/baseline.js:21-51 | a weight in range is accepted; a match below 100 or above 1000 gets the matching range reply; "invalid format" is given exactly when nothing matches, so the in-range invalid-format branch never fires |
| Baseline.HandleBaseline | src/commands/baseline.js:13-98 | the weight replies as classified; an existing baseline is reported with its value and date and not replaced; otherwise the baseline is saved with today's date; config is untouched |
| Baseline.SavedBaselineIsFinal | src/commands/baseline.js:62-82 | a saved baseline reads back with today's date, and a further baseline message is refused |
| Checkin.DaysUntil | src/commands/checkin.js:90 | the signed number of days from today to the deadline, when both are dates |
| Checkin.DaysLine | src/commands/checkin.js:89-94 | the days-until-deadline line appears only with a deadline and a non-negative count |
| Checkin.TotalLostSign | src/commands/checkin.js:85 | the check-in reply shows `-` exactly when the total lost is zero or more |
| Checkin.SignsDifferOnlyAtZero | src/commands/checkin.js:85 | the check-in reply and the leaderboard entry choose different signs for the same total lost exactly when it is zero: the reply shows `-0.0`, the leaderboard `+0.0` |
| Checkin.HandleCheckin | src/commands/checkin.js:13-113 | refuses after the deadline, showing the stored deadline, then the weight replies, then "no baseline"; whenever every check passes it records, appending the check-in and reports the weight, the total lost with its sign, the baseline, the count and the days left |
| Checkin.DeadlineIsChronological | src/commands/checkin.js:22 | for a deadline date, `today > deadline` on texts means the deadline day is over, and the deadline day itself is still open |
| Checkin.DaysLineCounts | src/commands/checkin.js:89-94 | the days line appears exactly when the deadline is a date not yet past, and shows the days from today to it |
| SetDeadline.HandleSetDeadline | src/slashCommands/setDeadline.js:15-62 | non-admins are refused; an empty or invalid trimmed date is reported; otherwise the trimmed date is stored; users are untouched |
| SetDeadline.StoredDeadlineIsCanonical | src/slashCommands/setDeadline.js:40-54 | the stored deadline reads back as the trimmed text, which is the canonical rendering of a real date |
| ResetChallenge.HandleResetChallenge | src/slashCommands/resetChallenge.js:15-62 | non-admins and a missing channel change nothing; otherwise all user rows are cleared and the sent flag is set to `false` |
| ResetChallenge.ResetKeepsSettings | src/slashCommands/resetChallenge.js:40-43 | after a reset the deadline and every other key read as before, and the sent flag reads `false` |
| ResetChallenge.ResetAllowsNewBaselines | src/slashCommands/resetChallenge.js:40 | after a reset anyone can set a baseline again, and nobody is listed |
| StartChallenge.ErrorBlock | src/slashCommands/startChallenge.js:237-316 | end-date errors are shown on the end-date block, all others on the mode block |
| StartChallenge.StartAnnouncement | src/slashCommands/startChallenge.js:123-167 | the announcement names the mode, start and end dates, the day count between them, and includes the percentage example only in percentage mode |
| StartChallenge.FirstError | src/slashCommands/startChallenge.js:237-316 | a non-admin is refused as unauthorized whatever the form says; no error exactly when the user is an admin, the mode is `total` or `percentage`, the end date is present, valid and after today, and no challenge is active |
| StartChallenge.HandleStartChallengeSubmit | src/slashCommands/startChallenge.js:231-368 | the first failing check is reported and nothing is written; otherwise the deadline is the end date, the sent flag is `false`, and the announcement is posted when a channel is set |
| StartChallenge.FutureTestIsChronological | src/slashCommands/startChallenge.js:296 | for a date text, `endDate <= today` means the end date is today or earlier |
| StartChallenge.StartedDuration | src/slashCommands/startChallenge.js:133-136 | for a started challenge, the announced duration is the number of days from today to the end date, at least one |
| StartChallenge.StartedConfig | src/slashCommands/startChallenge.js:322-323 | after a start, the deadline reads as the end date and the sent flag as `false` |
| ChallengeStatus.StatusFor | src/slashCommands/challengeStatus.js:18-33 | the "no deadline" reply is given exactly when no deadline is set |
| ChallengeStatus.HandleChallengeStatus | src/slashCommands/challengeStatus.js:14-49 | the reply is the status for the stored deadline on today's date; the store is read only |
| ChallengeStatus.StatusOfDeadline | src/slashCommands/challengeStatus.js:28-30 | the ended line is never shown; the deadline day shows "ends today"; any other date shows the distance in days, even when the deadline is past; a non-date shows NaN days remaining |
| LeaderboardCommand.HandleLeaderboard | src/slashCommands/leaderboard.js:15-144 | no channel means nothing is posted; no users means "no participants"; otherwise the board lists the top of the ranking with medals, under a status line exactly when a deadline is set; the store is read only |
| LeaderboardCommand.PostedLength | src/slashCommands/leaderboard.js:103 | the posted list has `min(5, n)` entries for `n` participants and is ordered best first |
| FinalLeaderboard.ShouldSendFinalLeaderboard | src/services/finalLeaderboard.js:14-45 | the gate opens exactly when the deadline is the day before today and the sent flag is not `true`; no deadline or a `true` flag keeps it shut |
| FinalLeaderboard.GateOpensOnce | src/services/finalLeaderboard.js:21-32 | for one deadline the gate opens on a single day, which is one day after the deadline |
| FinalLeaderboard.FinalPostFor | src/services/finalLeaderboard.js:65-146 | no users gives the "no participants" post; otherwise the deadline and one line per participant, line k holding the k-th entry of the ranking with its medal |
| FinalLeaderboard.FinalPostListsEveryone | src/services/finalLeaderboard.js:124-146 | the posted entries are the ranking: best first, every participant exactly once, and equal metrics in sheet order |
| FinalLeaderboard.SendFinalLeaderboard | src/services/finalLeaderboard.js:51-162 | without a channel nothing is posted or changed; otherwise the final post is made, and the flag becomes `true` only when the post is accepted |
| FinalLeaderboard.SentGateStaysShut | src/services/finalLeaderboard.js:35-38 | once the flag is set the gate stays shut on every later day, and the deadline is kept |
| DmRouting.RouteOf | src/index.js:80-143 | bot and subtype messages are ignored; a direct message goes to the baseline handler when its lowercased trimmed text starts with `baseline`, else to check-in when it starts with `checkin`, else nowhere |
| DmRouting.RoutingIgnoresPadding | src/index.js:132 | white space around the command never changes the route |
| DmRouting.RoutingIgnoresCase | src/index.js:132 | the route of a message and of its lowercased text are the same |
| DmRouting.PaddedCommandText | src/index.js:132 | padding with white space leaves the command text unchanged |
| DmRouting.LookupOnlyWhenNeeded | src/index.js:92-127 | the channel lookup matters only when neither `channel_type` nor the `D` prefix decides; a failed lookup routes like a negative one |

## Left out

- Google Sheets and Slack I/O are not modelled. Failing API calls are not modelled either: the 400 "sheet missing" path of `getDeadline` and `getConfigValue`, and every `catch` that posts or acknowledges a generic error. The model runs sequentially, with no failing calls.
- Because no call fails, several error mappings cannot be reached and are not modelled:
  - the baseline handler's verbatim "already set" message;
  - the check-in handler's "not found"/"baseline" message;
  - the error post in `src/index.js:144-156`.
  - Each `catch` would receive the store's own error only after the handler had already checked the same condition.
- The "User row not found" branch of `addCheckin` cannot be reached. The model proves that the row is found.
- The spreadsheet cells are modelled as structured values, not text. The check-in column is a parsed list in which an entry's weight may be a non-number (dropped on read), or the column is unparseable (read as empty). The JSON text itself is not modelled.
- Floating point is not modelled. Weights are reals:
  - `toFixed(1)` rounding in the replies and in the stored total lost is not modelled;
  - `parseFloat` of a number cell is modelled as `Blank`, `Number` or `Garbage` (NaN).
- Sheets.CheckinUpdate: the stored total lost is the exact difference, not its one-decimal `toFixed` text.
- JavaScript `new Date` of a text is modelled only for canonical `YYYY-MM-DD` texts; every other text is treated as an invalid date (NaN).
  - Ranking.DateKey: a check-in whose date is not a canonical date text sorts as if it were the earliest date. `Array.prototype.sort` with a NaN comparison result is implementation-defined.
- Time zones and the clock are left out. Today is an input date, and `toDateString` comparisons are taken to be comparisons of calendar dates, which holds when both sides are parsed the same way.
- `Array.prototype.sort` is modelled as a stable insertion sort. The sort is stable in the standard; the algorithm it uses is not modelled.
- `toLowerCase` is modelled with the ASCII case mapping only. String `<` compares characters, not UTF-16 code units; the two agree for the ASCII texts compared here.
- Functions the code calls but that `sheets.js` and `messages.js` do not define are not modelled:
  - `getCompetitionMode` and `hasActiveCompetition` are inputs;
  - `setCompetitionMode` and `setCompetitionStartDate` are recorded in the start-challenge reply;
  - `formatLeaderboardEntryWithMode` is represented by the line's entry and mode.
- `handleStartChallenge` and `buildStartChallengeModal` only open a Slack view and are not modelled. The modal's field values are inputs.
- The username returned by `users.info` is an input.
- Concurrency between Slack events, and the read-then-write race of the store operations, are not modelled.
- Message text layout and emoji are not modelled. Replies are datatypes carrying the branch and the shown values.
- StartChallenge.FutureTestIsChronological: it requires an end date in canonical form. The code compares the untrimmed end date with today's text. This agrees with the calendar only for canonical text, which is what the Slack date picker supplies.
