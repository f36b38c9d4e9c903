/**
 * Weight parsing and date validation (src/utils/validation.js).
 *
 * Dates are calendar triples; `DayNumber` counts days from 1000-01-01 in the
 * proleptic Gregorian calendar JavaScript's `Date` uses, so day differences and
 * chronological order are differences and order of day numbers. The clock
 * (`getTodayDate`) is not modelled: callers receive "today" as a `Date`.
 */
module Validation {
  import opened Wrappers
  import opened Text

  // ------------------------------------------------------------ calendar

  datatype Date = Date(year: int, month: int, day: int)

  predicate IsLeapYear(y: int)
  {
    y % 4 == 0 && (y % 100 != 0 || y % 400 == 0)
  }

  function DaysInYear(y: int): int
  {
    if IsLeapYear(y) then 366 else 365
  }

  function DaysInMonth(y: int, m: int): int
  {
    if m == 2 then (if IsLeapYear(y) then 29 else 28)
    else if m == 4 || m == 6 || m == 9 || m == 11 then 30
    else 31
  }

  /** A date `validateDateFormat` accepts: a four-digit year, a month of the year and a day that month has. */
  predicate ValidDate(d: Date)
  {
    1000 <= d.year <= 9999 && 1 <= d.month <= 12 && 1 <= d.day <= DaysInMonth(d.year, d.month)
  }

  /** Days of year `y` before the first of month `m` (for m = 13, the whole year). */
  function DaysBeforeMonth(y: int, m: int): int
  {
    (if m <= 1 then 0 else if m == 2 then 31 else if m == 3 then 59 else if m == 4 then 90
     else if m == 5 then 120 else if m == 6 then 151 else if m == 7 then 181
     else if m == 8 then 212 else if m == 9 then 243 else if m == 10 then 273
     else if m == 11 then 304 else if m == 12 then 334 else 365)
    + (if IsLeapYear(y) && m > 2 then 1 else 0)
  }

  /** Days from 1000-01-01 to the first of January of year `y`. */
  function DaysBeforeYear(y: int): int
  {
    if y <= 1000 then 0 else DaysBeforeYear(y - 1) + DaysInYear(y - 1)
  }

  /** The position of a date on the time line, in days. */
  function DayNumber(d: Date): int
  {
    DaysBeforeYear(d.year) + DaysBeforeMonth(d.year, d.month) + d.day - 1
  }

  /** Calendar order: by year, then month, then day. */
  predicate DateBefore(a: Date, b: Date)
  {
    a.year < b.year || (a.year == b.year && (a.month < b.month || (a.month == b.month && a.day < b.day)))
  }

  lemma MonthsAscend(y: int, m1: int, m2: int)
    requires 1 <= m1 < m2 <= 13
    ensures DaysBeforeMonth(y, m1) + DaysInMonth(y, m1) <= DaysBeforeMonth(y, m2)
  {
  }

  lemma {:induction false} YearsAscend(y1: int, y2: int)
    requires 1000 <= y1 < y2
    ensures DaysBeforeYear(y1) + DaysInYear(y1) <= DaysBeforeYear(y2)
    decreases y2 - y1
  {
    if y2 > y1 + 1 {
      YearsAscend(y1, y2 - 1);
    }
  }

  lemma DayNumberAscends(a: Date, b: Date)
    requires ValidDate(a) && ValidDate(b) && DateBefore(a, b)
    ensures DayNumber(a) < DayNumber(b)
  {
    MonthsAscend(a.year, a.month, 13);
    if a.year < b.year {
      YearsAscend(a.year, b.year);
    } else if a.month < b.month {
      MonthsAscend(a.year, a.month, b.month);
    }
  }

  /** Day numbers order valid dates exactly as the calendar does, and tell different dates apart. */
  lemma DayNumberOrder(a: Date, b: Date)
    requires ValidDate(a) && ValidDate(b)
    ensures DayNumber(a) < DayNumber(b) <==> DateBefore(a, b)
    ensures DayNumber(a) == DayNumber(b) <==> a == b
  {
    if DateBefore(a, b) {
      DayNumberAscends(a, b);
    } else if DateBefore(b, a) {
      DayNumberAscends(b, a);
    }
  }

  // ----------------------------------------------------------- date text

  /** `/^\d{4}-\d{2}-\d{2}$/`. */
  predicate IsDatePattern(s: string)
  {
    |s| == 10 && AllDigits(s[..4]) && s[4] == '-' && AllDigits(s[5..7]) && s[7] == '-' && AllDigits(s[8..])
  }

  /** The three `parseInt` results of a text matching the pattern. */
  function DateFields(s: string): Date
    requires IsDatePattern(s)
  {
    Date(DigitsValue(s[..4]), DigitsValue(s[5..7]), DigitsValue(s[8..]))
  }

  /** The date an untrimmed text names, when it is exactly `YYYY-MM-DD` and a real calendar date. */
  function ParseDate(s: string): (r: Option<Date>)
    ensures r.Some? ==> IsDatePattern(s) && ValidDate(r.value)
  {
    if IsDatePattern(s) && ValidDate(DateFields(s)) then Some(DateFields(s)) else None
  }

  /** `validateDateFormat`: the trimmed text names a real calendar date in `YYYY-MM-DD` form. */
  function ValidateDateFormat(s: string): (ok: bool)
    ensures ok ==> s != [] && IsDatePattern(Trim(s)) && ValidDate(DateFields(Trim(s)))
  {
    ParseDate(Trim(s)).Some?
  }

  /** A canonical date text passes, with any white space around it. */
  lemma ValidateDateFormatPadded(p: string, d: Date, q: string)
    requires ValidDate(d) && AllWhitespace(p) && AllWhitespace(q)
    ensures ValidateDateFormat(p + FormatDate(d) + q)
  {
    FormatDateRoundTrip(d);
    TrimPadded(p, FormatDate(d), q);
  }

  /** Only a trimmed text of exactly ten characters can pass, so an unpadded month or day (`2024-2-5`) fails. */
  lemma ValidateDateFormatRejectsUnpadded(s: string)
    requires |Trim(s)| != 10
    ensures !ValidateDateFormat(s)
  {
  }

  /** A character other than a digit at any field position of the trimmed text (`abcd-ef-gh`) fails the pattern. */
  lemma ValidateDateFormatRejectsLetters(s: string, i: nat)
    requires i < |Trim(s)| && i != 4 && i != 7 && !IsDigit(Trim(s)[i])
    ensures !ValidateDateFormat(s)
  {
    NonDigitBreaksPattern(Trim(s), i);
  }

  /** A non-digit where the pattern wants a digit breaks it. */
  lemma NonDigitBreaksPattern(t: string, i: nat)
    requires i < |t| && i != 4 && i != 7 && !IsDigit(t[i])
    ensures !IsDatePattern(t)
  {
    if |t| == 10 {
      if i < 4 {
        assert t[..4][i] == t[i];
      } else if i < 7 {
        assert t[5..7][i - 5] == t[i];
      } else {
        assert t[8..][i - 8] == t[i];
      }
    }
  }

  /**
   * The calendar check: a text of the right shape whose day lies past the end of its month
   * (`2026-02-30`) fails, and 29 February passes exactly in a leap year.
   */
  lemma ValidateDateFormatChecksCalendar(s: string)
    requires IsDatePattern(Trim(s))
    ensures var d := DateFields(Trim(s));
      d.day > DaysInMonth(d.year, d.month) ==> !ValidateDateFormat(s)
    ensures var d := DateFields(Trim(s));
      1000 <= d.year && d.month == 2 && d.day == 29 ==> (ValidateDateFormat(s) <==> IsLeapYear(d.year))
  {
    var d := DateFields(Trim(s));
    PatternParses(s);
    FourDigitsBound(Trim(s)[..4]);
    if 1000 <= d.year && d.month == 2 && d.day == 29 {
      LeapDay(d);
    }
  }

  /** For a text of the right shape, only the calendar check remains. */
  lemma PatternParses(s: string)
    requires IsDatePattern(Trim(s))
    ensures ValidateDateFormat(s) <==> ValidDate(DateFields(Trim(s)))
  {
  }

  /** 29 February of a four-digit year exists exactly in a leap year. */
  lemma LeapDay(d: Date)
    requires 1000 <= d.year <= 9999 && d.month == 2 && d.day == 29
    ensures ValidDate(d) <==> IsLeapYear(d.year)
  {
  }

  /** Four digits denote at most 9999. */
  lemma {:induction false} FourDigitsBound(t: string)
    requires |t| == 4
    ensures DigitsValue(t) <= 9999
  {
    DigitsValueBelow(t);
    assert Pow10(4) == 10000;
  }

  /** A run of `n` digits denotes less than `10^n`. */
  lemma {:induction false} DigitsValueBelow(t: string)
    ensures DigitsValue(t) < Pow10(|t|)
  {
    if t != [] {
      var h := t[..|t| - 1];
      DigitsValueBelow(h);
      assert DigitsValue(t) == DigitsValue(h) * 10 + DigitOf(t[|t| - 1]);
      assert Pow10(|t|) == 10 * Pow10(|h|);
    }
  }

  /** `padStart(2, '0')` on the decimal rendering. */
  function Pad2(n: nat): string
  {
    if n < 10 then ['0'] + NatToDecimal(n) else NatToDecimal(n)
  }

  /** `formatDate`: the year, then month and day zero-padded to two digits, joined by `-`. */
  function FormatDate(d: Date): string
    requires d.year >= 0 && d.month >= 0 && d.day >= 0
  {
    NatToDecimal(d.year) + "-" + Pad2(d.month) + "-" + Pad2(d.day)
  }

  lemma {:induction false} Pad2Value(n: nat)
    requires n < 100
    ensures |Pad2(n)| == 2 && AllDigits(Pad2(n)) && DigitsValue(Pad2(n)) == n
  {
    NatToDecimalLength(n);
    NatToDecimalValue(n);
    if n < 10 {
      var t := Pad2(n);
      assert t[..1] == ['0'];
      assert DigitsValue(t) == DigitsValue(t[..1]) * 10 + DigitOf(t[1]);
    }
  }

  /** The pieces `DateFields` reads back out of a rendered date. */
  lemma FormatDatePieces(d: Date)
    requires ValidDate(d)
    ensures var s := FormatDate(d);
      IsDatePattern(s) && s[..4] == NatToDecimal(d.year) && s[5..7] == Pad2(d.month) && s[8..] == Pad2(d.day)
  {
    NatToDecimalLength(d.year);
    Pad2Value(d.month);
    Pad2Value(d.day);
    DateTextPieces(NatToDecimal(d.year), Pad2(d.month), Pad2(d.day));
  }

  /** Four digits, two and two joined by `-` match the pattern, and slicing gives the pieces back. */
  lemma DateTextPieces(y: string, m: string, dd: string)
    requires |y| == 4 && |m| == 2 && |dd| == 2 && AllDigits(y) && AllDigits(m) && AllDigits(dd)
    ensures var s := y + "-" + m + "-" + dd;
      IsDatePattern(s) && s[..4] == y && s[5..7] == m && s[8..] == dd
  {
    var s := y + "-" + m + "-" + dd;
    assert s[..4] == y && s[5..7] == m && s[8..] == dd;
  }

  /** Rendering a real date and validating the text gives the date back; the text needs no trimming. */
  lemma FormatDateRoundTrip(d: Date)
    requires ValidDate(d)
    ensures ParseDate(FormatDate(d)) == Some(d)
    ensures IsTrimmed(FormatDate(d)) && ValidateDateFormat(FormatDate(d))
  {
    var s := FormatDate(d);
    FormatDatePieces(d);
    NatToDecimalValue(d.year);
    Pad2Value(d.month);
    Pad2Value(d.day);
    assert DateFields(s) == d;
    assert IsDigit(s[0]) && IsDigit(s[9]);
    TrimTrimmed(s);
  }

  /** Conversely, a text that names a date is the rendering of that date: canonical texts and dates correspond one to one. */
  lemma ParseDateCanonical(s: string)
    requires ParseDate(s).Some?
    ensures FormatDate(ParseDate(s).value) == s
  {
    var d := ParseDate(s).value;
    FormatDatePieces(d);
    var t := FormatDate(d);
    NatToDecimalValue(d.year);
    Pad2Value(d.month);
    Pad2Value(d.day);
    FixedWidthDigitsOrder(s[..4], t[..4]);
    FixedWidthDigitsOrder(s[5..7], t[5..7]);
    FixedWidthDigitsOrder(s[8..], t[8..]);
    assert s == s[..4] + "-" + s[5..7] + "-" + s[8..];
    assert t == t[..4] + "-" + t[5..7] + "-" + t[8..];
  }

  /**
   * The lemma the command handlers rely on when they compare date texts with `<`, `>` and `<=`:
   * for two texts that name dates, text order is chronological order.
   */
  lemma DateTextOrder(a: string, b: string)
    requires ParseDate(a).Some? && ParseDate(b).Some?
    ensures StrLess(a, b) <==> DayNumber(ParseDate(a).value) < DayNumber(ParseDate(b).value)
    ensures a == b <==> DayNumber(ParseDate(a).value) == DayNumber(ParseDate(b).value)
  {
    var da, db := ParseDate(a).value, ParseDate(b).value;
    var ya, yb := a[..4], b[..4];
    var ma, mb := a[5..7], b[5..7];
    var xa, xb := a[8..], b[8..];
    assert a == ya + ("-" + ma + "-" + xa);
    assert b == yb + ("-" + mb + "-" + xb);
    assert "-" + ma + "-" + xa == "-" + (ma + ("-" + xa));
    assert "-" + mb + "-" + xb == "-" + (mb + ("-" + xb));
    assert "-" + xa == "-" + xa;
    StrLessConcat(ya, "-" + ma + "-" + xa, yb, "-" + mb + "-" + xb);
    StrLessConcat("-", ma + ("-" + xa), "-", mb + ("-" + xb));
    StrLessConcat(ma, "-" + xa, mb, "-" + xb);
    StrLessConcat("-", xa, "-", xb);
    FixedWidthDigitsOrder(ya, yb);
    FixedWidthDigitsOrder(ma, mb);
    FixedWidthDigitsOrder(xa, xb);
    DayNumberOrder(da, db);
    assert a == b <==> (ya == yb && ma == mb && xa == xb);
  }

  /**
   * `daysBetween` on two texts: the absolute number of days between the dates they name.
   * A text that is not a canonical date makes `new Date` invalid and the result NaN (`None`).
   */
  function DaysBetween(a: string, b: string): (r: Option<nat>)
    ensures r.Some? <==> ParseDate(a).Some? && ParseDate(b).Some?
    ensures r.Some? ==> r.value == DayDistance(ParseDate(a).value, ParseDate(b).value)
  {
    match (ParseDate(a), ParseDate(b))
    case (Some(da), Some(db)) => Some(DayDistance(da, db))
    case _ => None
  }

  /** The absolute difference of two day numbers. */
  function DayDistance(a: Date, b: Date): nat
  {
    if DayNumber(b) >= DayNumber(a) then DayNumber(b) - DayNumber(a) else DayNumber(a) - DayNumber(b)
  }

  /** `daysBetween` is symmetric, and zero exactly for the same date. */
  lemma DaysBetweenMetric(a: string, b: string)
    requires ParseDate(a).Some? && ParseDate(b).Some?
    ensures DaysBetween(a, b) == DaysBetween(b, a)
    ensures DaysBetween(a, b) == Some(0) <==> a == b
  {
    DateTextOrder(a, b);
  }

  // --------------------------------------------------------------- weight

  function DigitRunEnd(s: string, i: nat): (j: nat)
    requires i <= |s|
    ensures i <= j <= |s| && (forall x :: i <= x < j ==> IsDigit(s[x])) && (j == |s| || !IsDigit(s[j]))
    decreases |s| - i
  {
    if i < |s| && IsDigit(s[i]) then DigitRunEnd(s, i + 1) else i
  }

  function SpaceRunEnd(s: string, i: nat): (j: nat)
    requires i <= |s|
    ensures i <= j <= |s| && (forall x :: i <= x < j ==> IsWhitespace(s[x])) && (j == |s| || !IsWhitespace(s[j]))
    decreases |s| - i
  {
    if i < |s| && IsWhitespace(s[i]) then SpaceRunEnd(s, i + 1) else i
  }

  /** Where the group `(\d+\.?\d*)` starting at `i` ends: digits, then a `.` and digits if a `.` follows. */
  function NumberEnd(s: string, i: nat): (j: nat)
    requires i <= |s|
    ensures i <= j <= |s|
  {
    var k := DigitRunEnd(s, i);
    if k < |s| && s[k] == '.' then DigitRunEnd(s, k + 1) else k
  }

  /** `lb` in either case (the optional `s` never changes whether or where the pattern matches). */
  predicate UnitAt(s: string, k: nat)
  {
    k + 1 < |s| && (s[k] == 'l' || s[k] == 'L') && (s[k + 1] == 'b' || s[k + 1] == 'B')
  }

  /**
   * The pattern `(\d+\.?\d*)\s*lbs?` matches at position `i`. Backtracking cannot help: any shorter
   * group leaves a digit or a `.` where `\s*lb` has to start, so the greedy group is the only candidate.
   */
  predicate WeightAt(s: string, i: nat)
  {
    i < |s| && IsDigit(s[i]) && UnitAt(s, SpaceRunEnd(s, NumberEnd(s, i)))
  }

  function Pow10(n: nat): (p: nat)
    ensures p >= 1
  {
    if n == 0 then 1 else 10 * Pow10(n - 1)
  }

  /** `parseFloat` of the captured group: the integer digits plus the fraction digits over a power of ten. */
  function GroupValue(s: string, i: nat): real
    requires i <= |s|
  {
    var k := DigitRunEnd(s, i);
    var frac := if k < |s| && s[k] == '.' then s[k + 1..DigitRunEnd(s, k + 1)] else [];
    DigitsValue(s[i..k]) as real + DigitsValue(frac) as real / Pow10(|frac|) as real
  }

  /** One match: where it starts, where the captured group ends, and the number the group denotes. */
  datatype WeightMatch = WeightMatch(start: nat, groupEnd: nat, value: real)

  /** The leftmost match at or after `i`. */
  function MatchWeightFrom(s: string, i: nat): (r: Option<WeightMatch>)
    ensures r.Some? ==> i <= r.value.start && WeightAt(s, r.value.start)
    ensures r.Some? ==> forall j :: i <= j < r.value.start ==> !WeightAt(s, j)
    ensures r.Some? ==> r.value.groupEnd == NumberEnd(s, r.value.start)
    ensures r.Some? ==> r.value.value == GroupValue(s, r.value.start)
    ensures r.None? ==> forall j :: i <= j < |s| ==> !WeightAt(s, j)
    decreases |s| - i
  {
    if i >= |s| then None
    else if WeightAt(s, i) then Some(WeightMatch(i, NumberEnd(s, i), GroupValue(s, i)))
    else
      var r := MatchWeightFrom(s, i + 1);
      NoWeightExtends(s, i, if r.Some? then r.value.start else |s|);
      r
  }

  /** A position that is not a match extends a match-free stretch starting right after it. */
  lemma NoWeightExtends(s: string, i: nat, k: int)
    requires !WeightAt(s, i)
    requires forall j :: i + 1 <= j < k ==> !WeightAt(s, j)
    ensures forall j :: i <= j < k ==> !WeightAt(s, j)
  {
  }

  /** `text.match(/(\d+\.?\d*)\s*lbs?/i)`: the leftmost match, if any. */
  function MatchWeight(s: string): (r: Option<WeightMatch>)
    ensures r.Some? ==> WeightAt(s, r.value.start) && forall j :: 0 <= j < r.value.start ==> !WeightAt(s, j)
    ensures r.Some? ==> r.value.groupEnd == NumberEnd(s, r.value.start) && r.value.value == GroupValue(s, r.value.start)
    ensures r.None? <==> forall j :: 0 <= j < |s| ==> !WeightAt(s, j)
  {
    MatchWeightFrom(s, 0)
  }

  /** The weight range `parseWeight` accepts, in pounds. */
  const MinWeight: real := 100.0
  const MaxWeight: real := 1000.0

  /**
   * `parseWeight`: the number in the leftmost `<number> lb|lbs` match, when it lies in [100, 1000].
   * `None` as input stands for `null`, `undefined` or a value that is not a string.
   */
  function ParseWeight(text: Option<string>): (r: Option<real>)
    ensures r.Some? ==> MinWeight <= r.value <= MaxWeight
    ensures r.Some? <==> text.Some? && MatchWeight(text.value).Some?
                         && MinWeight <= MatchWeight(text.value).value.value <= MaxWeight
    ensures r.Some? ==> r.value == MatchWeight(text.value).value.value
  {
    if text.None? || text.value == [] then None
    else
      match MatchWeight(text.value)
      case None => None
      case Some(m) => if m.value < MinWeight || m.value > MaxWeight then None else Some(m.value)
  }

  lemma DigitRunEndAt(s: string, i: nat, k: nat)
    requires i <= k <= |s| && (forall x :: i <= x < k ==> IsDigit(s[x])) && (k == |s| || !IsDigit(s[k]))
    ensures DigitRunEnd(s, i) == k
  {
  }

  lemma SpaceRunEndAt(s: string, i: nat, k: nat)
    requires i <= k <= |s| && (forall x :: i <= x < k ==> IsWhitespace(s[x])) && (k == |s| || !IsWhitespace(s[k]))
    ensures SpaceRunEnd(s, i) == k
  {
  }

  /** A digit run from `i` to `k`, white space up to `e` and `lb` there: the pattern matches at `i`, capturing the digits. */
  lemma WeightAtDigits(s: string, i: nat, k: nat, e: nat)
    requires i < k <= e && e + 1 < |s|
    requires forall x :: i <= x < k ==> IsDigit(s[x])
    requires forall x :: k <= x < e ==> IsWhitespace(s[x])
    requires UnitAt(s, e)
    ensures WeightAt(s, i) && GroupValue(s, i) == DigitsValue(s[i..k]) as real
  {
    assert !IsDigit(s[k]) && s[k] != '.' by {
      if k < e {
        assert IsWhitespace(s[k]);
      }
    }
    DigitRunEndAt(s, i, k);
    SpaceRunEndAt(s, k, e);
  }

  /** A whole number written out before `lb`/`lbs` (after any text without digits) is read back exactly. */
  lemma ParseWeightOfNumber(prefix: string, n: nat, pad: string, unit: string)
    requires forall j :: 0 <= j < |prefix| ==> !IsDigit(prefix[j])
    requires AllWhitespace(pad) && UnitAt(unit, 0)
    requires 100 <= n <= 1000
    ensures ParseWeight(Some(prefix + NatToDecimal(n) + pad + unit)) == Some(n as real)
  {
    var digits := NatToDecimal(n);
    var i := |prefix|;
    var k := i + |digits|;
    WeightTextLayout(prefix, digits, pad, unit);
    NatToDecimalValue(n);
    ParseWeightAt(prefix + digits + pad + unit, i, k, k + |pad|, n);
  }

  /** The layout facts alone, over an opaque text, fix what `parseWeight` returns. */
  lemma ParseWeightAt(s: string, i: nat, k: nat, e: nat, n: nat)
    requires i < k <= e && e + 1 < |s| && 100 <= n <= 1000
    requires DigitsValue(s[i..k]) == n
    requires forall x :: i <= x < k ==> IsDigit(s[x])
    requires forall x :: k <= x < e ==> IsWhitespace(s[x])
    requires UnitAt(s, e)
    requires forall j :: 0 <= j < i ==> !IsDigit(s[j])
    ensures ParseWeight(Some(s)) == Some(n as real)
  {
    WeightAtDigits(s, i, k, e);
    LeftmostMatch(s, i);
  }

  /** Where each part of `prefix + digits + pad + unit` lies. */
  lemma WeightTextLayout(prefix: string, digits: string, pad: string, unit: string)
    requires forall j :: 0 <= j < |prefix| ==> !IsDigit(prefix[j])
    requires AllDigits(digits) && digits != [] && AllWhitespace(pad) && UnitAt(unit, 0)
    ensures var s := prefix + digits + pad + unit;
      var i, k := |prefix|, |prefix| + |digits|;
      s[i..k] == digits
      && (forall x :: i <= x < k ==> IsDigit(s[x]))
      && (forall x :: k <= x < k + |pad| ==> IsWhitespace(s[x]))
      && UnitAt(s, k + |pad|)
      && (forall j :: 0 <= j < i ==> !IsDigit(s[j]))
  {
    var s := prefix + digits + pad + unit;
    var i, k := |prefix|, |prefix| + |digits|;
    assert s == prefix + (digits + (pad + unit));
    forall x | i <= x < k
      ensures IsDigit(s[x])
    {
      assert s[x] == digits[x - i];
    }
    forall x | k <= x < k + |pad|
      ensures IsWhitespace(s[x])
    {
      assert s[x] == pad[x - k];
    }
    forall j | 0 <= j < i
      ensures !IsDigit(s[j])
    {
      assert s[j] == prefix[j];
    }
    assert s[k + |pad|] == unit[0] && s[k + |pad| + 1] == unit[1];
  }

  /** When the pattern holds at `i` and at no digit before it, the match starts at `i`. */
  lemma LeftmostMatch(s: string, i: nat)
    requires WeightAt(s, i)
    requires forall j :: 0 <= j < i ==> !IsDigit(s[j])
    ensures MatchWeight(s) == Some(WeightMatch(i, NumberEnd(s, i), GroupValue(s, i)))
  {
    MatchExists(s, i);
    var st := MatchWeight(s).value.start;
    WeightAtDigit(s, st);
  }

  /** A position where the pattern holds guarantees a match that starts no later. */
  lemma MatchExists(s: string, i: nat)
    requires WeightAt(s, i)
    ensures MatchWeight(s).Some? && MatchWeight(s).value.start <= i
  {
  }

  /** A match starts on a digit. */
  lemma WeightAtDigit(s: string, j: nat)
    requires WeightAt(s, j)
    ensures j < |s| && IsDigit(s[j])
  {
  }
}
