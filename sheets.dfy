/**
 * The spreadsheet store (src/services/sheets.js) over in-memory tables.
 *
 * The Users sheet is the sequence of its data rows (A2:G, the header row is not
 * part of it); the Config sheet is the sequence of its key/value rows (A2:B).
 * Each Google Sheets call becomes a read or an in-place update of these
 * sequences. Cells are kept as the values the code reads back out of them:
 * numeric cells as `NumCell`, the check-in column as the parsed JSON array.
 */
module Sheets {
  import opened Wrappers

  /** A numeric cell as `cell ? parseFloat(cell) : …` reads it: empty, a number, or text that reads as `NaN`. */
  datatype NumCell = Blank | Number(value: real) | Garbage

  /** One element of the stored check-in array; `weight == None` when it reads as `NaN`. */
  datatype StoredCheckin = StoredCheckin(weight: Option<real>, date: string)

  /** The check-in column (E): empty, not valid JSON, or a JSON array. */
  datatype CheckinsCell = NoCheckins | Unparseable | CheckinList(items: seq<StoredCheckin>)

  /** One row of the Users sheet, columns A to G. */
  datatype UserRow = UserRow(
    slackId: string,
    username: string,
    baseline: NumCell,
    baselineDate: string,
    checkins: CheckinsCell,
    totalLost: NumCell,
    latestCheckinDate: string)

  /** One row of the Config sheet. */
  datatype ConfigRow = ConfigRow(key: string, value: string)

  /** A check-in as the code uses it after decoding: a numeric weight and its date text. */
  datatype Checkin = Checkin(weight: real, date: string)

  /**
   * The user object `getUserData` and `getAllUsers` return. `baseline` keeps the three
   * readings of the cell: `Blank` is `null`, `Garbage` is `NaN`. Missing texts are `""`.
   */
  datatype UserData = UserData(
    slackId: string,
    username: string,
    baseline: NumCell,
    baselineDate: string,
    checkins: seq<Checkin>,
    totalLost: NumCell,
    latestCheckinDate: string)

  const DeadlineKey: string := "deadline"
  const FinalSentKey: string := "final_leaderboard_sent"

  const AlreadySetError: string := "User already has a baseline weight set"
  const UserNotFoundError: string := "User not found. Please set a baseline first."
  const NoBaselineError: string := "No baseline weight set. Please set a baseline first."

  // ------------------------------------------------------------ decoding

  /** `.map(...).filter(c => !isNaN(c.weight))`: the stored check-ins whose weight is a number, in order. */
  function ValidCheckins(items: seq<StoredCheckin>): (r: seq<Checkin>)
    ensures |r| <= |items|
  {
    if items == [] then []
    else
      var rest := ValidCheckins(items[1..]);
      match items[0].weight
      case Some(w) => [Checkin(w, items[0].date)] + rest
      case None => rest
  }

  /** The check-ins of a row: an empty cell or JSON that fails to parse reads as no check-ins. */
  function DecodeCheckins(cell: CheckinsCell): seq<Checkin>
  {
    match cell
    case CheckinList(items) => ValidCheckins(items)
    case _ => []
  }

  /** `JSON.stringify` of a list of decoded check-ins, as the array it stores. */
  function EncodeCheckins(cs: seq<Checkin>): (r: seq<StoredCheckin>)
    ensures |r| == |cs|
  {
    if cs == [] then [] else [StoredCheckin(Some(cs[0].weight), cs[0].date)] + EncodeCheckins(cs[1..])
  }

  /** Writing decoded check-ins and reading them back gives the same list. */
  lemma {:induction false} DecodeEncode(cs: seq<Checkin>)
    ensures ValidCheckins(EncodeCheckins(cs)) == cs
  {
    if cs != [] {
      DecodeEncode(cs[1..]);
      assert EncodeCheckins(cs)[1..] == EncodeCheckins(cs[1..]);
    }
  }

  /** Decoding distributes over concatenation: order is kept, `NaN` entries are dropped wherever they are. */
  lemma {:induction false} ValidCheckinsAppend(a: seq<StoredCheckin>, b: seq<StoredCheckin>)
    ensures ValidCheckins(a + b) == ValidCheckins(a) + ValidCheckins(b)
  {
    if a != [] {
      assert (a + b)[1..] == a[1..] + b;
      ValidCheckinsAppend(a[1..], b);
    } else {
      assert a + b == b;
    }
  }

  /** The object `getUserData` builds from a row; an empty `TotalLost` cell reads as 0. */
  function DecodeRow(row: UserRow): (u: UserData)
    ensures u.slackId == row.slackId && u.baseline == row.baseline
    ensures u.checkins == DecodeCheckins(row.checkins)
    ensures row.totalLost != Blank ==> u.totalLost == row.totalLost
    ensures row.totalLost == Blank ==> u.totalLost == Number(0.0)
  {
    UserData(row.slackId, row.username, row.baseline, row.baselineDate, DecodeCheckins(row.checkins),
             if row.totalLost == Blank then Number(0.0) else row.totalLost,
             row.latestCheckinDate)
  }

  // --------------------------------------------------------- user lookup

  /** The index of the first row whose Slack id is `id`. */
  function FindUser(rows: seq<UserRow>, id: string): (r: Option<nat>)
    ensures r.Some? ==> r.value < |rows| && rows[r.value].slackId == id
    ensures r.Some? ==> forall j :: 0 <= j < r.value ==> rows[j].slackId != id
    ensures r.None? <==> forall j :: 0 <= j < |rows| ==> rows[j].slackId != id
  {
    FindUserFrom(rows, id, 0)
  }

  function FindUserFrom(rows: seq<UserRow>, id: string, i: nat): (r: Option<nat>)
    requires i <= |rows|
    ensures r.Some? ==> i <= r.value < |rows| && rows[r.value].slackId == id
    ensures r.Some? ==> forall j :: i <= j < r.value ==> rows[j].slackId != id
    ensures r.None? <==> forall j :: i <= j < |rows| ==> rows[j].slackId != id
    decreases |rows| - i
  {
    if i == |rows| then None
    else if rows[i].slackId == id then Some(i)
    else FindUserFrom(rows, id, i + 1)
  }

  /** What `getUserData(id)` returns: the decoded first matching row, or `null`. */
  function UserDataOf(rows: seq<UserRow>, id: string): (r: Option<UserData>)
    ensures r.Some? <==> FindUser(rows, id).Some?
    ensures r.Some? ==> r.value == DecodeRow(rows[FindUser(rows, id).value]) && r.value.slackId == id
  {
    match FindUser(rows, id)
    case None => None
    case Some(i) => Some(DecodeRow(rows[i]))
  }

  /** JavaScript truthiness of the baseline read from a row: `null`, `NaN` and `0` are falsy. */
  predicate HasBaseline(c: NumCell)
  {
    c.Number? && c.value != 0.0
  }

  // ----------------------------------------------------------- user writes

  /** The row a first baseline creates: `[id, name, weight, date, '[]', '0', '']`. */
  function NewUserRow(slackId: string, username: string, weight: real, date: string): UserRow
  {
    UserRow(slackId, username, Number(weight), date, CheckinList([]), Number(0.0), "")
  }

  /**
   * `setBaseline` on the Users rows: refused when the user's stored baseline is not `null`;
   * otherwise columns B–D of the user's row are rewritten, or a new row is appended.
   */
  function BaselineUpdate(rows: seq<UserRow>, slackId: string, username: string, weight: real, date: string)
    : (r: Result<seq<UserRow>>)
    ensures r.Err? <==> FindUser(rows, slackId).Some? && rows[FindUser(rows, slackId).value].baseline != Blank
    ensures r.Err? ==> r.message == AlreadySetError
    ensures r.Ok? && FindUser(rows, slackId).Some? ==>
      var i := FindUser(rows, slackId).value;
      |r.value| == |rows|
      && r.value[i] == rows[i].(username := username, baseline := Number(weight), baselineDate := date)
      && forall j :: 0 <= j < |rows| && j != i ==> r.value[j] == rows[j]
    ensures r.Ok? && FindUser(rows, slackId).None? ==> r.value == rows + [NewUserRow(slackId, username, weight, date)]
  {
    match FindUser(rows, slackId)
    case Some(i) =>
      if rows[i].baseline != Blank then Err(AlreadySetError)
      else Ok(rows[i := rows[i].(username := username, baseline := Number(weight), baselineDate := date)])
    case None => Ok(rows + [NewUserRow(slackId, username, weight, date)])
  }

  /** A baseline is set once: after it succeeds the user reads back with it, and a second attempt is refused. */
  lemma BaselineSetOnce(rows: seq<UserRow>, slackId: string, username: string, weight: real, date: string,
                        username2: string, weight2: real, date2: string)
    requires BaselineUpdate(rows, slackId, username, weight, date).Ok?
    ensures var rows' := BaselineUpdate(rows, slackId, username, weight, date).value;
      UserDataOf(rows', slackId).Some?
      && UserDataOf(rows', slackId).value.baseline == Number(weight)
      && UserDataOf(rows', slackId).value.baselineDate == date
      && BaselineUpdate(rows', slackId, username2, weight2, date2) == Err(AlreadySetError)
  {
    var rows' := BaselineUpdate(rows, slackId, username, weight, date).value;
    match FindUser(rows, slackId)
    case Some(i) =>
      assert forall j :: 0 <= j < |rows'| ==> rows'[j].slackId == rows[j].slackId;
      assert FindUser(rows', slackId) == Some(i);
    case None =>
      assert forall j :: 0 <= j < |rows| ==> rows'[j] == rows[j];
      assert rows'[|rows|] == NewUserRow(slackId, username, weight, date);
      assert FindUser(rows', slackId) == Some(|rows|);
  }

  /**
   * `addCheckin` on the Users rows. It fails when the user is missing or the baseline is falsy;
   * otherwise the user's row gets the check-in appended to its decoded list,
   * `TotalLost = baseline - weight` and `LatestCheckinDate = date`.
   */
  function CheckinUpdate(rows: seq<UserRow>, slackId: string, weight: real, date: string): (r: Result<seq<UserRow>>)
    ensures FindUser(rows, slackId).None? ==> r == Err(UserNotFoundError)
    ensures FindUser(rows, slackId).Some? && !HasBaseline(rows[FindUser(rows, slackId).value].baseline)
            ==> r == Err(NoBaselineError)
    ensures r.Ok? <==> FindUser(rows, slackId).Some? && HasBaseline(rows[FindUser(rows, slackId).value].baseline)
    ensures r.Ok? ==> |r.value| == |rows|
  {
    match FindUser(rows, slackId)
    case None => Err(UserNotFoundError)
    case Some(i) =>
      if !HasBaseline(rows[i].baseline) then Err(NoBaselineError)
      else
        var row := rows[i];
        var checkins := DecodeCheckins(row.checkins) + [Checkin(weight, date)];
        Ok(rows[i := row.(checkins := CheckinList(EncodeCheckins(checkins)),
                          totalLost := Number(row.baseline.value - weight),
                          latestCheckinDate := date)])
  }

  /**
   * A successful check-in appends exactly one `{weight, date}` at the end of the user's list,
   * records `baseline - weight` and the date, keeps columns A–D, and leaves every other row alone.
   */
  lemma CheckinAppends(rows: seq<UserRow>, slackId: string, weight: real, date: string)
    requires CheckinUpdate(rows, slackId, weight, date).Ok?
    ensures var rows' := CheckinUpdate(rows, slackId, weight, date).value;
      var i := FindUser(rows, slackId).value;
      var before := UserDataOf(rows, slackId).value;
      FindUser(rows', slackId) == Some(i)
      && UserDataOf(rows', slackId).value
         == before.(checkins := before.checkins + [Checkin(weight, date)],
                    totalLost := Number(before.baseline.value - weight),
                    latestCheckinDate := date)
      && forall j :: 0 <= j < |rows| && j != i ==> rows'[j] == rows[j]
  {
    var rows' := CheckinUpdate(rows, slackId, weight, date).value;
    var i := FindUser(rows, slackId).value;
    assert forall j :: 0 <= j < |rows'| ==> rows'[j].slackId == rows[j].slackId;
    assert FindUser(rows', slackId) == Some(i);
    DecodeEncode(DecodeCheckins(rows[i].checkins) + [Checkin(weight, date)]);
  }

  // ------------------------------------------------------------- all users

  /** `getAllUsers`: the decoded rows, in sheet order, skipping rows whose baseline is empty or `NaN`. */
  function AllUsers(rows: seq<UserRow>): (r: seq<UserData>)
    ensures |r| <= |rows|
    ensures forall k :: 0 <= k < |r| ==> r[k].baseline.Number?
  {
    if rows == [] then []
    else
      var last := rows[|rows| - 1];
      AllUsers(rows[..|rows| - 1]) + (if last.baseline.Number? then [DecodeRow(last)] else [])
  }

  /** The users `getAllUsers` returns are exactly the decoded rows that carry a numeric baseline. */
  lemma {:induction false} AllUsersMembers(rows: seq<UserRow>, u: UserData)
    ensures u in AllUsers(rows) <==> exists i :: 0 <= i < |rows| && rows[i].baseline.Number? && DecodeRow(rows[i]) == u
  {
    if rows != [] {
      var init := rows[..|rows| - 1];
      AllUsersMembers(init, u);
      if u in AllUsers(init) {
        var i :| 0 <= i < |init| && init[i].baseline.Number? && DecodeRow(init[i]) == u;
        assert rows[i] == init[i];
      }
      if exists i :: 0 <= i < |rows| && rows[i].baseline.Number? && DecodeRow(rows[i]) == u {
        var i :| 0 <= i < |rows| && rows[i].baseline.Number? && DecodeRow(rows[i]) == u;
        if i < |init| {
          assert init[i] == rows[i];
        }
      }
    }
  }

  /** Sheet order is kept: the users of two blocks of rows are the users of the first block, then of the second. */
  lemma {:induction false} AllUsersAppend(a: seq<UserRow>, b: seq<UserRow>)
    ensures AllUsers(a + b) == AllUsers(a) + AllUsers(b)
  {
    if b == [] {
      assert a + b == a;
    } else {
      var b' := b[..|b| - 1];
      assert (a + b)[..|a + b| - 1] == a + b';
      assert (a + b)[|a + b| - 1] == b[|b| - 1];
      AllUsersAppend(a, b');
    }
  }

  // ----------------------------------------------------------------- config

  /** `rows.findIndex(row => row[0] === key)`. */
  function ConfigIndex(rows: seq<ConfigRow>, key: string): (r: Option<nat>)
    ensures r.Some? ==> r.value < |rows| && rows[r.value].key == key
    ensures r.Some? ==> forall j :: 0 <= j < r.value ==> rows[j].key != key
    ensures r.None? <==> forall j :: 0 <= j < |rows| ==> rows[j].key != key
  {
    ConfigIndexFrom(rows, key, 0)
  }

  function ConfigIndexFrom(rows: seq<ConfigRow>, key: string, i: nat): (r: Option<nat>)
    requires i <= |rows|
    ensures r.Some? ==> i <= r.value < |rows| && rows[r.value].key == key
    ensures r.Some? ==> forall j :: i <= j < r.value ==> rows[j].key != key
    ensures r.None? <==> forall j :: i <= j < |rows| ==> rows[j].key != key
    decreases |rows| - i
  {
    if i == |rows| then None
    else if rows[i].key == key then Some(i)
    else ConfigIndexFrom(rows, key, i + 1)
  }

  /** A row `getConfigValue` accepts: the key matches and the value is not empty. */
  predicate Holds(row: ConfigRow, key: string)
  {
    row.key == key && row.value != []
  }

  /** `getConfigValue(key)`: the value of the first row with the key and a non-empty value, else `null`. */
  function ConfigLookup(rows: seq<ConfigRow>, key: string): (r: Option<string>)
    ensures r.Some? ==> r.value != [] && exists i :: (0 <= i < |rows| && Holds(rows[i], key) && rows[i].value == r.value
                                                     && forall j :: 0 <= j < i ==> !Holds(rows[j], key))
    ensures r.None? <==> forall j :: 0 <= j < |rows| ==> !Holds(rows[j], key)
  {
    ConfigLookupFrom(rows, key, 0)
  }

  function ConfigLookupFrom(rows: seq<ConfigRow>, key: string, i: nat): (r: Option<string>)
    requires i <= |rows|
    ensures r.Some? ==> exists k :: (i <= k < |rows| && Holds(rows[k], key) && rows[k].value == r.value
                                     && forall j :: i <= j < k ==> !Holds(rows[j], key))
    ensures r.None? <==> forall j :: i <= j < |rows| ==> !Holds(rows[j], key)
    decreases |rows| - i
  {
    if i == |rows| then None
    else if Holds(rows[i], key) then Some(rows[i].value)
    else ConfigLookupFrom(rows, key, i + 1)
  }

  /** `setConfigValue(key, value)`: overwrite the value of the first row with the key, or append a row. */
  function ConfigUpsert(rows: seq<ConfigRow>, key: string, value: string): (r: seq<ConfigRow>)
    ensures |r| == |rows| || |r| == |rows| + 1
  {
    match ConfigIndex(rows, key)
    case Some(i) => rows[i := ConfigRow(key, value)]
    case None => rows + [ConfigRow(key, value)]
  }

  /** The number of rows holding a key. */
  function KeyCount(rows: seq<ConfigRow>, key: string): nat
  {
    if rows == [] then 0 else (if rows[0].key == key then 1 else 0) + KeyCount(rows[1..], key)
  }

  lemma {:induction false} KeyCountAppend(a: seq<ConfigRow>, b: seq<ConfigRow>, key: string)
    ensures KeyCount(a + b, key) == KeyCount(a, key) + KeyCount(b, key)
  {
    if a == [] {
      assert a + b == b;
    } else {
      assert (a + b)[1..] == a[1..] + b;
      KeyCountAppend(a[1..], b, key);
    }
  }

  lemma {:induction false} KeyCountZero(rows: seq<ConfigRow>, key: string)
    requires forall j :: 0 <= j < |rows| ==> rows[j].key != key
    ensures KeyCount(rows, key) == 0
  {
    if rows != [] {
      KeyCountZero(rows[1..], key);
    }
  }

  lemma {:induction false} KeyCountUpdate(rows: seq<ConfigRow>, i: nat, row: ConfigRow, key: string)
    requires i < |rows| && rows[i].key == row.key
    ensures KeyCount(rows[i := row], key) == KeyCount(rows, key)
  {
    if i > 0 {
      assert rows[i := row][1..] == rows[1..][i - 1 := row];
      KeyCountUpdate(rows[1..], i - 1, row, key);
    } else {
      assert rows[i := row][1..] == rows[1..];
    }
  }

  /** After setting a non-empty value, reading the key returns exactly that value. */
  lemma LookupAfterUpsert(rows: seq<ConfigRow>, key: string, value: string)
    requires value != []
    ensures ConfigLookup(ConfigUpsert(rows, key, value), key) == Some(value)
  {
    var rows' := ConfigUpsert(rows, key, value);
    match ConfigIndex(rows, key)
    case Some(i) =>
      LookupFromFound(rows', key, i);
    case None =>
      LookupFromFound(rows', key, |rows|);
  }

  lemma LookupFromFound(rows: seq<ConfigRow>, key: string, i: nat)
    requires i < |rows| && Holds(rows[i], key)
    requires forall j :: 0 <= j < i ==> rows[j].key != key
    ensures ConfigLookup(rows, key) == Some(rows[i].value)
  {
    LookupFromFoundFrom(rows, key, i, 0);
  }

  lemma {:induction false} LookupFromFoundFrom(rows: seq<ConfigRow>, key: string, i: nat, s: nat)
    requires s <= i < |rows| && Holds(rows[i], key)
    requires forall j :: 0 <= j < i ==> rows[j].key != key
    ensures ConfigLookupFrom(rows, key, s) == Some(rows[i].value)
    decreases i - s
  {
    if s < i {
      LookupFromFoundFrom(rows, key, i, s + 1);
    }
  }

  /** Setting one key leaves what every other key reads unchanged. */
  lemma UpsertOtherKeys(rows: seq<ConfigRow>, key: string, value: string, other: string)
    requires other != key
    ensures ConfigLookup(ConfigUpsert(rows, key, value), other) == ConfigLookup(rows, other)
  {
    UpsertAgrees(rows, key, value, other);
    LookupFromAgrees(rows, ConfigUpsert(rows, key, value), other, 0);
  }

  /** `rows'` answers every lookup of `other` the way `rows` does: same rows holding it, same values, nothing new. */
  predicate AgreesOn(rows: seq<ConfigRow>, rows': seq<ConfigRow>, other: string)
  {
    |rows| <= |rows'|
    && (forall j :: 0 <= j < |rows| ==>
          (Holds(rows'[j], other) <==> Holds(rows[j], other)) && (Holds(rows[j], other) ==> rows'[j].value == rows[j].value))
    && (forall j :: |rows| <= j < |rows'| ==> !Holds(rows'[j], other))
  }

  lemma UpsertAgrees(rows: seq<ConfigRow>, key: string, value: string, other: string)
    requires other != key
    ensures AgreesOn(rows, ConfigUpsert(rows, key, value), other)
  {
  }

  lemma {:induction false} LookupFromAgrees(rows: seq<ConfigRow>, rows': seq<ConfigRow>, other: string, s: nat)
    requires AgreesOn(rows, rows', other) && s <= |rows|
    ensures ConfigLookupFrom(rows', other, s) == ConfigLookupFrom(rows, other, s)
    decreases |rows| - s
  {
    if s < |rows| {
      LookupFromAgrees(rows, rows', other, s + 1);
      assert Holds(rows'[s], other) <==> Holds(rows[s], other);
    } else {
      assert ConfigLookupFrom(rows, other, s) == None;
      assert forall j :: s <= j < |rows'| ==> !Holds(rows'[j], other);
    }
  }

  /** Setting a key never adds a second row for it: a missing key gets one row, an existing key keeps its count. */
  lemma UpsertNoDuplicate(rows: seq<ConfigRow>, key: string, value: string)
    ensures KeyCount(ConfigUpsert(rows, key, value), key) == if KeyCount(rows, key) == 0 then 1 else KeyCount(rows, key)
  {
    match ConfigIndex(rows, key)
    case Some(i) =>
      KeyCountUpdate(rows, i, ConfigRow(key, value), key);
      KeyCountPositive(rows, i, key);
    case None =>
      KeyCountZero(rows, key);
      KeyCountAppend(rows, [ConfigRow(key, value)], key);
  }

  lemma {:induction false} KeyCountPositive(rows: seq<ConfigRow>, i: nat, key: string)
    requires i < |rows| && rows[i].key == key
    ensures KeyCount(rows, key) > 0
  {
    if i > 0 {
      KeyCountPositive(rows[1..], i - 1, key);
    }
  }

  // ------------------------------------------------------------------ store

  /** The two sheets, updated in place by the store operations. */
  class Store {
    var users: seq<UserRow>
    var config: seq<ConfigRow>

    constructor(users0: seq<UserRow>, config0: seq<ConfigRow>)
      ensures users == users0 && config == config0
    {
      users := users0;
      config := config0;
    }

    /** `getUserData`: scan the rows for the first one with the Slack id. */
    method GetUserData(slackId: string) returns (r: Option<UserData>)
      ensures r == UserDataOf(users, slackId)
    {
      var i := 0;
      while i < |users|
        invariant 0 <= i <= |users|
        invariant forall j :: 0 <= j < i ==> users[j].slackId != slackId
      {
        if users[i].slackId == slackId {
          return Some(DecodeRow(users[i]));
        }
        i := i + 1;
      }
      return None;
    }

    /** `findUserRowIndex`: the sheet row number (1-based, after the header) of the first matching row. */
    method FindUserRowIndex(slackId: string) returns (r: Option<nat>)
      ensures r.Some? <==> FindUser(users, slackId).Some?
      ensures r.Some? ==> r.value == FindUser(users, slackId).value + 2 && r.value >= 2
    {
      var i := 0;
      while i < |users|
        invariant 0 <= i <= |users|
        invariant forall j :: 0 <= j < i ==> users[j].slackId != slackId
      {
        if users[i].slackId == slackId {
          return Some(i + 2);
        }
        i := i + 1;
      }
      return None;
    }

    /** `setBaseline`: refused (nothing written) when a baseline is stored; otherwise B–D of the row are written, or a row appended. */
    method SetBaseline(slackId: string, username: string, weight: real, date: string) returns (r: Result<()>)
      modifies this
      ensures config == old(config)
      ensures BaselineUpdate(old(users), slackId, username, weight, date).Err? ==>
        r == Err(AlreadySetError) && users == old(users)
      ensures BaselineUpdate(old(users), slackId, username, weight, date).Ok? ==>
        r.Ok? && users == BaselineUpdate(old(users), slackId, username, weight, date).value
    {
      var existing := GetUserData(slackId);
      if existing.Some? && existing.value.baseline != Blank {
        return Err(AlreadySetError);
      }
      var rowIndex: Option<nat> := None;
      if existing.Some? {
        rowIndex := FindUserRowIndex(slackId);
      }
      if rowIndex.Some? {
        var i := rowIndex.value - 2;
        users := users[i := users[i].(username := username, baseline := Number(weight), baselineDate := date)];
      } else {
        users := users + [NewUserRow(slackId, username, weight, date)];
      }
      return Ok(());
    }

    /** `addCheckin`: fails with nothing written when the user or the baseline is missing; otherwise E–G of the row are rewritten. */
    method AddCheckin(slackId: string, weight: real, date: string) returns (r: Result<()>)
      modifies this
      ensures config == old(config)
      ensures CheckinUpdate(old(users), slackId, weight, date).Err? ==>
        r == Err(CheckinUpdate(old(users), slackId, weight, date).message) && users == old(users)
      ensures CheckinUpdate(old(users), slackId, weight, date).Ok? ==>
        r.Ok? && users == CheckinUpdate(old(users), slackId, weight, date).value
    {
      var userData := GetUserData(slackId);
      if userData.None? {
        return Err(UserNotFoundError);
      }
      if !HasBaseline(userData.value.baseline) {
        return Err(NoBaselineError);
      }
      var checkins := userData.value.checkins + [Checkin(weight, date)];
      var totalLost := userData.value.baseline.value - weight;
      var rowIndex := FindUserRowIndex(slackId);
      // The row `getUserData` found is still there, so the "User row not found" error cannot occur.
      assert rowIndex.Some?;
      var i := rowIndex.value - 2;
      users := users[i := users[i].(checkins := CheckinList(EncodeCheckins(checkins)),
                                    totalLost := Number(totalLost),
                                    latestCheckinDate := date)];
      return Ok(());
    }

    /** `getAllUsers`: collect the decoded rows that have a numeric baseline, in sheet order. */
    method GetAllUsers() returns (r: seq<UserData>)
      ensures r == AllUsers(users)
    {
      r := [];
      var i := 0;
      while i < |users|
        invariant 0 <= i <= |users|
        invariant r == AllUsers(users[..i])
      {
        assert users[..i + 1][..i] == users[..i];
        if users[i].baseline.Number? {
          r := r + [DecodeRow(users[i])];
        }
        i := i + 1;
      }
      assert users[..i] == users;
    }

    /** `resetChallenge`: clear every data row; the header row and the Config sheet stay. */
    method ResetChallenge()
      modifies this
      ensures users == [] && config == old(config)
    {
      if |users| == 0 {
        return;
      }
      users := [];
    }

    /** `getConfigValue`: scan for the first row with the key and a non-empty value. */
    method GetConfigValue(key: string) returns (r: Option<string>)
      ensures r == ConfigLookup(config, key)
    {
      var i := 0;
      while i < |config|
        invariant 0 <= i <= |config|
        invariant ConfigLookupFrom(config, key, i) == ConfigLookup(config, key)
      {
        if config[i].key == key && config[i].value != [] {
          return Some(config[i].value);
        }
        i := i + 1;
      }
      return None;
    }

    /** `setConfigValue`: `findIndex` on the key, then overwrite that row's value or append a row. */
    method SetConfigValue(key: string, value: string)
      modifies this
      ensures config == ConfigUpsert(old(config), key, value) && users == old(users)
    {
      var i := 0;
      while i < |config|
        invariant 0 <= i <= |config|
        invariant forall j :: 0 <= j < i ==> config[j].key != key
      {
        if config[i].key == key {
          config := config[i := ConfigRow(key, value)];
          return;
        }
        i := i + 1;
      }
      config := config + [ConfigRow(key, value)];
    }

    /** `getDeadline`: the `deadline` key read like any other. */
    method GetDeadline() returns (r: Option<string>)
      ensures r == ConfigLookup(config, DeadlineKey)
    {
      r := GetConfigValue(DeadlineKey);
    }

    /** `setDeadline`: the `deadline` key written like any other. */
    method SetDeadline(deadline: string)
      modifies this
      ensures config == ConfigUpsert(old(config), DeadlineKey, deadline) && users == old(users)
    {
      SetConfigValue(DeadlineKey, deadline);
    }
  }
}
