/**
 * The leaderboard aggregation shared by the `/leaderboard` command
 * (src/slashCommands/leaderboard.js:46-123) and the final leaderboard
 * (src/services/finalLeaderboard.js:224-295): per user the current weight,
 * the weight lost and the metric of the competition mode, then a stable
 * sort by metric, largest first, and a medal or place per position.
 *
 * `Array.prototype.sort` is stable; it is modelled by the stable insertion
 * sort `StableSortDesc`, whose properties (sorted, a permutation, stable) are
 * the ones the code relies on.
 */
module Ranking {
  import opened Wrappers
  import opened Validation
  import opened Sheets

  // ---------------------------------------------------------- stable sort

  predicate SortedDesc<T>(s: seq<T>, key: T -> real)
  {
    forall i, j :: 0 <= i < j < |s| ==> key(s[i]) >= key(s[j])
  }

  /** Put `x` in front of the first element whose key is not larger: before every element of equal key. */
  function InsertDesc<T>(x: T, t: seq<T>, key: T -> real): (r: seq<T>)
    ensures |r| == |t| + 1
    ensures multiset(r) == multiset(t) + multiset{x}
  {
    if t == [] || key(t[0]) <= key(x) then [x] + t
    else
      assert t == [t[0]] + t[1..];
      [t[0]] + InsertDesc(x, t[1..], key)
  }

  /** `s.sort((a, b) => key(b) - key(a))`: largest key first, equal keys in their original order. */
  function StableSortDesc<T>(s: seq<T>, key: T -> real): (r: seq<T>)
    ensures |r| == |s|
  {
    if s == [] then [] else InsertDesc(s[0], StableSortDesc(s[1..], key), key)
  }

  /** The elements of `s` whose key is `v`, in their order in `s`. */
  function WithKey<T>(s: seq<T>, key: T -> real, v: real): seq<T>
  {
    if s == [] then [] else (if key(s[0]) == v then [s[0]] else []) + WithKey(s[1..], key, v)
  }

  lemma {:induction false} InsertSorted<T>(x: T, t: seq<T>, key: T -> real)
    requires SortedDesc(t, key)
    ensures SortedDesc(InsertDesc(x, t, key), key)
  {
    if t != [] && key(t[0]) > key(x) {
      var rest := InsertDesc(x, t[1..], key);
      InsertSorted(x, t[1..], key);
      assert key(t[0]) >= key(rest[0]) by {
        InsertHead(x, t[1..], key);
        if |t| > 1 {
          assert t[1..][0] == t[1];
        }
      }
      var r := InsertDesc(x, t, key);
      assert r == [t[0]] + rest;
      forall i, j | 0 <= i < j < |r|
        ensures key(r[i]) >= key(r[j])
      {
        if i == 0 {
          assert r[j] == rest[j - 1];
          assert key(rest[0]) >= key(rest[j - 1]);
        } else {
          assert r[i] == rest[i - 1] && r[j] == rest[j - 1];
        }
      }
    }
  }

  /** The head of an insertion is the inserted element or the old head. */
  lemma InsertHead<T>(x: T, t: seq<T>, key: T -> real)
    ensures InsertDesc(x, t, key)[0] == x || (t != [] && InsertDesc(x, t, key)[0] == t[0])
  {
  }

  /** The sort puts keys in non-increasing order. */
  lemma {:induction false} SortIsSorted<T>(s: seq<T>, key: T -> real)
    ensures SortedDesc(StableSortDesc(s, key), key)
  {
    if s != [] {
      SortIsSorted(s[1..], key);
      InsertSorted(s[0], StableSortDesc(s[1..], key), key);
    }
  }

  /** The sort only reorders: same elements, same multiplicities. */
  lemma {:induction false} SortIsPermutation<T>(s: seq<T>, key: T -> real)
    ensures multiset(StableSortDesc(s, key)) == multiset(s)
  {
    if s != [] {
      SortIsPermutation(s[1..], key);
      assert s == [s[0]] + s[1..];
    }
  }

  lemma {:induction false} InsertStable<T>(x: T, t: seq<T>, key: T -> real, v: real)
    ensures WithKey(InsertDesc(x, t, key), key, v) == (if key(x) == v then [x] else []) + WithKey(t, key, v)
  {
    if t == [] || key(t[0]) <= key(x) {
      WithKeyCons(x, t, key, v);
    } else {
      var rest := InsertDesc(x, t[1..], key);
      WithKeyCons(t[0], rest, key, v);
      WithKeyFirst(t, key, v);
      InsertStable(x, t[1..], key, v);
      SwapEmpty(if key(t[0]) == v then [t[0]] else [], if key(x) == v then [x] else [], WithKey(t[1..], key, v));
    }
  }

  /** `WithKey` of a sequence with a known head. */
  lemma WithKeyCons<T>(h: T, r: seq<T>, key: T -> real, v: real)
    ensures WithKey([h] + r, key, v) == (if key(h) == v then [h] else []) + WithKey(r, key, v)
  {
    assert ([h] + r)[1..] == r;
  }

  /** `WithKey` unfolded once. */
  lemma WithKeyFirst<T>(t: seq<T>, key: T -> real, v: real)
    requires t != []
    ensures WithKey(t, key, v) == (if key(t[0]) == v then [t[0]] else []) + WithKey(t[1..], key, v)
  {
  }

  /** Two pieces of which one is empty can be put in either order. */
  lemma SwapEmpty<T>(a: seq<T>, b: seq<T>, w: seq<T>)
    requires a == [] || b == []
    ensures a + (b + w) == b + (a + w)
  {
  }

  /** Stability: the elements sharing any one key come out in the order they went in. */
  lemma {:induction false} SortIsStable<T>(s: seq<T>, key: T -> real, v: real)
    ensures WithKey(StableSortDesc(s, key), key, v) == WithKey(s, key, v)
  {
    if s != [] {
      SortIsStable(s[1..], key, v);
      InsertStable(s[0], StableSortDesc(s[1..], key), key, v);
    }
  }

  /** The first element after sorting is the first element of the input whose key is the largest. */
  lemma {:induction false} SortHead<T>(s: seq<T>, key: T -> real) returns (i: nat)
    requires s != []
    ensures i < |s| && StableSortDesc(s, key)[0] == s[i]
    ensures forall j :: 0 <= j < |s| ==> key(s[j]) <= key(s[i])
    ensures forall j :: 0 <= j < i ==> key(s[j]) < key(s[i])
  {
    var t := StableSortDesc(s[1..], key);
    InsertHeadIs(s[0], t, key);
    if |s| == 1 {
      i := 0;
    } else {
      var i' := SortHead(s[1..], key);
      if key(t[0]) <= key(s[0]) {
        i := 0;
        ShiftBound(s, key, key(s[0]));
      } else {
        i := i' + 1;
        ShiftBound(s, key, key(s[i]));
        ShiftStrict(s, key, i', key(s[i]));
      }
    }
  }

  lemma InsertHeadIs<T>(x: T, t: seq<T>, key: T -> real)
    ensures InsertDesc(x, t, key)[0] == if t == [] || key(t[0]) <= key(x) then x else t[0]
  {
  }

  lemma ShiftBound<T>(s: seq<T>, key: T -> real, b: real)
    requires s != [] && key(s[0]) <= b
    requires forall j :: 0 <= j < |s[1..]| ==> key(s[1..][j]) <= b
    ensures forall j :: 0 <= j < |s| ==> key(s[j]) <= b
  {
    forall j | 0 < j < |s|
      ensures key(s[j]) <= b
    {
      assert s[j] == s[1..][j - 1];
    }
  }

  lemma ShiftStrict<T>(s: seq<T>, key: T -> real, n: nat, b: real)
    requires s != [] && n < |s| - 1 && key(s[0]) < b
    requires forall j :: 0 <= j < n ==> key(s[1..][j]) < b
    ensures forall j :: 0 <= j < n + 1 ==> key(s[j]) < b
  {
    forall j | 0 < j < n + 1
      ensures key(s[j]) < b
    {
      assert s[j] == s[1..][j - 1];
    }
  }

  // ------------------------------------------------------ current weight

  /**
   * The sort key of a check-in, `new Date(c.date)`: the day number of a canonical
   * date text; any other text is put below every date.
   */
  function DateKey(c: Checkin): real
  {
    match ParseDate(c.date)
    case Some(d) => DayNumber(d) as real
    case None => -1.0
  }

  /** The current weight: the weight of the newest check-in after sorting by date, or the baseline without check-ins. */
  function CurrentWeight(baseline: real, checkins: seq<Checkin>): real
  {
    if checkins == [] then baseline else StableSortDesc(checkins, DateKey)[0].weight
  }

  /**
   * The current weight is the weight of the check-in with the latest date; among
   * check-ins of that date the one recorded first wins.
   */
  lemma CurrentWeightIsLatest(baseline: real, checkins: seq<Checkin>)
    requires checkins != []
    ensures exists i :: (0 <= i < |checkins| && CurrentWeight(baseline, checkins) == checkins[i].weight
                         && (forall j :: 0 <= j < |checkins| ==> DateKey(checkins[j]) <= DateKey(checkins[i]))
                         && (forall j :: 0 <= j < i ==> DateKey(checkins[j]) < DateKey(checkins[i])))
  {
    var i := SortHead(checkins, DateKey);
  }

  // ------------------------------------------------------------- entries

  /** One leaderboard row before formatting. */
  datatype Entry = Entry(username: string, baseline: real, current: real, weightLost: real, metric: real)

  predicate PercentageMode(mode: string)
  {
    mode == "percentage"
  }

  /**
   * The entry of one user, or none when the baseline is not a positive number. The metric is
   * the weight lost in pounds, or in percentage mode that loss as a percentage of the baseline.
   */
  function EntryOf(u: UserData, mode: string): (e: Option<Entry>)
    ensures e.Some? <==> u.baseline.Number? && u.baseline.value > 0.0
    ensures e.Some? ==> e.value.username == u.username && e.value.baseline == u.baseline.value
                        && e.value.current == CurrentWeight(u.baseline.value, u.checkins)
    ensures e.Some? ==> e.value.weightLost == e.value.baseline - e.value.current
    ensures e.Some? && !PercentageMode(mode) ==> e.value.metric == e.value.weightLost
    ensures e.Some? && PercentageMode(mode) ==> e.value.metric * e.value.baseline == e.value.weightLost * 100.0
  {
    if !u.baseline.Number? || u.baseline.value <= 0.0 then None
    else
      var baseline := u.baseline.value;
      var current := CurrentWeight(baseline, u.checkins);
      var weightLost := baseline - current;
      var metric := if PercentageMode(mode) then (if baseline > 0.0 then (weightLost / baseline) * 100.0 else 0.0)
                    else weightLost;
      Some(Entry(u.username, baseline, current, weightLost, metric))
  }

  /** The entries of the users in order, skipping users without a positive baseline. */
  function Entries(users: seq<UserData>, mode: string): (r: seq<Entry>)
    ensures |r| <= |users|
  {
    if users == [] then []
    else
      var last := users[|users| - 1];
      Entries(users[..|users| - 1], mode) + (match EntryOf(last, mode) case Some(e) => [e] case None => [])
  }

  /** The number of users with a positive baseline. */
  function Participants(users: seq<UserData>): nat
  {
    if users == [] then 0
    else Participants(users[..|users| - 1])
         + (if users[|users| - 1].baseline.Number? && users[|users| - 1].baseline.value > 0.0 then 1 else 0)
  }

  /** The full ranking has exactly one entry per user with a positive baseline. */
  lemma {:induction false} EntriesCount(users: seq<UserData>, mode: string)
    ensures |Entries(users, mode)| == Participants(users)
  {
    if users != [] {
      EntriesCount(users[..|users| - 1], mode);
    }
  }

  /** Every entry belongs to a user of the list with a positive baseline, whose numbers it carries. */
  lemma {:induction false} EntriesFromUsers(users: seq<UserData>, mode: string, e: Entry)
    requires e in Entries(users, mode)
    ensures exists u :: u in users && EntryOf(u, mode) == Some(e)
  {
    var init := users[..|users| - 1];
    var last := users[|users| - 1];
    if e in Entries(init, mode) {
      EntriesFromUsers(init, mode, e);
      var u :| u in init && EntryOf(u, mode) == Some(e);
      assert u in users;
    } else {
      assert EntryOf(last, mode) == Some(e);
    }
  }

  function MetricKey(e: Entry): real
  {
    e.metric
  }

  /** `leaderboard.sort((a, b) => b.metric - a.metric)` over the entries. */
  function Rank(users: seq<UserData>, mode: string): seq<Entry>
  {
    StableSortDesc(Entries(users, mode), MetricKey)
  }

  /** The ranking is the entries ordered by metric, best first, with ties in sheet order. */
  lemma RankProperties(users: seq<UserData>, mode: string, v: real)
    ensures SortedDesc(Rank(users, mode), MetricKey)
    ensures multiset(Rank(users, mode)) == multiset(Entries(users, mode))
    ensures |Rank(users, mode)| == Participants(users)
    ensures WithKey(Rank(users, mode), MetricKey, v) == WithKey(Entries(users, mode), MetricKey, v)
  {
    SortIsSorted(Entries(users, mode), MetricKey);
    SortIsPermutation(Entries(users, mode), MetricKey);
    SortIsStable(Entries(users, mode), MetricKey, v);
    EntriesCount(users, mode);
  }

  /** `board.slice(0, n)`: the first `n` entries, or all when there are fewer. */
  function Top(board: seq<Entry>, n: nat): (r: seq<Entry>)
    ensures |r| == if |board| < n then |board| else n
    ensures forall k :: 0 <= k < |r| ==> r[k] == board[k]
  {
    if |board| < n then board else board[..n]
  }

  // ------------------------------------------------------------- display

  /** The position marker: medals for the first three places, `k.` after that. */
  datatype Medal = Gold | Silver | Bronze | Place(n: nat)

  function MedalFor(index: nat): (m: Medal)
    ensures m.Place? <==> index >= 3
    ensures m.Place? ==> m.n == index + 1
    ensures index == 0 <==> m == Gold
    ensures index == 1 <==> m == Silver
    ensures index == 2 <==> m == Bronze
  {
    if index == 0 then Gold else if index == 1 then Silver else if index == 2 then Bronze else Place(index + 1)
  }

  /**
   * One line of a posted leaderboard: the position marker and the entry handed to
   * `formatLeaderboardEntryWithMode` together with the mode.
   */
  datatype Line = Line(medal: Medal, entry: Entry, mode: string)

  /** The `for (const user of users)` loop: collect one entry per user with a positive baseline. */
  method CollectEntries(users: seq<UserData>, mode: string) returns (board: seq<Entry>)
    ensures board == Entries(users, mode)
  {
    board := [];
    var i := 0;
    while i < |users|
      invariant 0 <= i <= |users|
      invariant board == Entries(users[..i], mode)
    {
      assert users[..i + 1][..i] == users[..i];
      var e := EntryOf(users[i], mode);
      if e.Some? {
        board := board + [e.value];
      }
      i := i + 1;
    }
    assert users[..i] == users;
  }

  /** The `forEach((entry, index) => message += ...)` loop: one line per entry, in ranking order. */
  method RankLines(board: seq<Entry>, mode: string) returns (lines: seq<Line>)
    ensures |lines| == |board|
    ensures forall k :: 0 <= k < |lines| ==> lines[k] == Line(MedalFor(k), board[k], mode)
  {
    lines := [];
    var index := 0;
    while index < |board|
      invariant 0 <= index <= |board|
      invariant |lines| == index
      invariant forall k :: 0 <= k < index ==> lines[k] == Line(MedalFor(k), board[k], mode)
    {
      lines := lines + [Line(MedalFor(index), board[index], mode)];
      index := index + 1;
    }
  }
}
