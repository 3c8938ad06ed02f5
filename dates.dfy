/**
 * Calendar dates as the source's JavaScript `Date` objects see them, reduced
 * to the calendar day (the time of day and the time zone are not modelled).
 *
 * Day arithmetic follows section 21.4 of ECMA-262 (Date Objects): a day is
 * numbered from 1970-01-01 with DayFromYear, and the setters `setDate`,
 * `setMonth` and `setFullYear` build their result with MakeDay, which lets
 * the month leave 0..11 and the day run past the end of its month; the
 * excess rolls over into the following (or preceding) months and years.
 * Nothing is clamped.
 */
module Dates {
  import opened Wrappers
  import opened Strings

  /** A calendar date; `month` runs from 1 to 12 (JavaScript counts months from 0). */
  datatype Date = Date(year: int, month: int, day: int)

  predicate IsLeapYear(y: int)
  {
    y % 4 == 0 && (y % 100 != 0 || y % 400 == 0)
  }

  function DaysInYear(y: int): int
  {
    if IsLeapYear(y) then 366 else 365
  }

  function DaysInMonth(y: int, m: int): (n: int)
    requires 1 <= m <= 12
    ensures 28 <= n <= 31
  {
    if m == 2 then (if IsLeapYear(y) then 29 else 28)
    else if m == 4 || m == 6 || m == 9 || m == 11 then 30
    else 31
  }

  /** A date that exists in the proleptic Gregorian calendar. */
  predicate Valid(d: Date)
  {
    1 <= d.month <= 12 && 1 <= d.day <= DaysInMonth(d.year, d.month)
  }

  /** DayFromYear of ECMA-262: the day number of January 1st of year `y`. */
  function DayFromYear(y: int): int
  {
    365 * (y - 1970) + (y - 1969) / 4 - (y - 1901) / 100 + (y - 1601) / 400
  }

  /** Days of year `y` that come before the first day of month `m`. */
  function DaysBeforeMonth(y: int, m: int): int
    requires 1 <= m <= 12
  {
    var leap := if IsLeapYear(y) then 1 else 0;
    if m == 1 then 0
    else if m == 2 then 31
    else if m == 3 then 59 + leap
    else if m == 4 then 90 + leap
    else if m == 5 then 120 + leap
    else if m == 6 then 151 + leap
    else if m == 7 then 181 + leap
    else if m == 8 then 212 + leap
    else if m == 9 then 243 + leap
    else if m == 10 then 273 + leap
    else if m == 11 then 304 + leap
    else 334 + leap
  }

  /** The number of days from 1970-01-01 to `d` (negative before it): Day(t) of ECMA-262. */
  function DayNumber(d: Date): int
    requires 1 <= d.month <= 12
  {
    DayFromYear(d.year) + DaysBeforeMonth(d.year, d.month) + d.day - 1
  }

  /**
   * MakeDay(year, month, date) of ECMA-262: the day number of the first day
   * of month `month0` (counted from 0, any integer, carried into the year
   * with floor division) of `year`, plus `date - 1`.
   */
  function MakeDay(year: int, month0: int, date: int): int
  {
    DayNumber(Date(year + month0 / 12, month0 % 12 + 1, 1)) + date - 1
  }

  /** One year after January 1st of `y` comes January 1st of `y + 1`. */
  lemma YearLength(y: int)
    ensures DayFromYear(y + 1) == DayFromYear(y) + DaysInYear(y)
  {
    FloorStep(y - 1969, 4);
    FloorStep(y - 1901, 100);
    FloorStep(y - 1601, 400);
    assert (y - 1968) % 4 == 0 <==> y % 4 == 0;
    assert (y - 1900) % 100 == 0 <==> y % 100 == 0;
    assert (y - 1600) % 400 == 0 <==> y % 400 == 0;
  }

  /** Floor division by a constant grows by one exactly when the dividend reaches a multiple of it. */
  lemma FloorStep(x: int, k: int)
    requires k == 4 || k == 100 || k == 400
    ensures (x + 1) / k - x / k == if (x + 1) % k == 0 then 1 else 0
  {
    if k == 4 {
      assert (x + 1) / 4 - x / 4 == if (x + 1) % 4 == 0 then 1 else 0;
    } else if k == 100 {
      assert (x + 1) / 100 - x / 100 == if (x + 1) % 100 == 0 then 1 else 0;
    } else {
      assert (x + 1) / 400 - x / 400 == if (x + 1) % 400 == 0 then 1 else 0;
    }
  }

  /** The first day of the month after (`y`, `m`) is `DaysInMonth(y, m)` days after the first of (`y`, `m`). */
  lemma NextMonthStart(y: int, m: int)
    requires 1 <= m <= 12
    ensures var next := if m == 12 then Date(y + 1, 1, 1) else Date(y, m + 1, 1);
      DayNumber(next) == DayNumber(Date(y, m, 1)) + DaysInMonth(y, m)
  {
    if m == 12 {
      YearLength(y);
    }
  }

  /**
   * The valid date `d` days (counted from 1) into month `m` of year `y`:
   * a day past the end of the month moves into the following months, a day
   * below 1 into the preceding ones.
   */
  function Normalize(y: int, m: int, d: int): (r: Date)
    requires 1 <= m <= 12
    ensures Valid(r)
    decreases if d < 1 then 1 - d else 0, d
  {
    if d < 1 then
      var py := if m == 1 then y - 1 else y;
      var pm := if m == 1 then 12 else m - 1;
      Normalize(py, pm, d + DaysInMonth(py, pm))
    else if d <= DaysInMonth(y, m) then
      Date(y, m, d)
    else if m == 12 then Normalize(y + 1, 1, d - 31)
    else Normalize(y, m + 1, d - DaysInMonth(y, m))
  }

  /** `Normalize` lands on the day `d - 1` days after the first of month `m`, counting across months and years. */
  lemma {:induction false} NormalizeDayNumber(y: int, m: int, d: int)
    requires 1 <= m <= 12
    ensures DayNumber(Normalize(y, m, d)) == DayNumber(Date(y, m, 1)) + d - 1
    decreases if d < 1 then 1 - d else 0, d
  {
    if d < 1 {
      var py := if m == 1 then y - 1 else y;
      var pm := if m == 1 then 12 else m - 1;
      var len := DaysInMonth(py, pm);
      assert Normalize(y, m, d) == Normalize(py, pm, d + len);
      NextMonthStart(py, pm);
      assert (if pm == 12 then Date(py + 1, 1, 1) else Date(py, pm + 1, 1)) == Date(y, m, 1);
      NormalizeDayNumber(py, pm, d + len);
    } else if d > DaysInMonth(y, m) {
      var len := DaysInMonth(y, m);
      var (ny, nm) := if m == 12 then (y + 1, 1) else (y, m + 1);
      assert Normalize(y, m, d) == Normalize(ny, nm, d - len);
      NextMonthStart(y, m);
      NormalizeDayNumber(ny, nm, d - len);
    }
  }

  /** `date.setDate(day)`. */
  function SetDate(d: Date, day: int): (r: Date)
    requires Valid(d)
    ensures Valid(r)
  {
    Normalize(d.year, d.month, day)
  }

  /** `date.setMonth(month0)`, with `month0` counted from 0 as in JavaScript. */
  function SetMonth(d: Date, month0: int): (r: Date)
    requires Valid(d)
    ensures Valid(r)
  {
    Normalize(d.year + month0 / 12, month0 % 12 + 1, d.day)
  }

  /** `date.setFullYear(year)`. */
  function SetFullYear(d: Date, year: int): (r: Date)
    requires Valid(d)
    ensures Valid(r)
  {
    Normalize(year, d.month, d.day)
  }

  /** `setDate` agrees with ECMA-262: the valid date whose day number is MakeDay of the new day. */
  lemma SetDateFollowsMakeDay(d: Date, day: int)
    requires Valid(d)
    ensures DayNumber(SetDate(d, day)) == MakeDay(d.year, d.month - 1, day)
  {
    assert (d.month - 1) / 12 == 0 && (d.month - 1) % 12 == d.month - 1;
    NormalizeDayNumber(d.year, d.month, day);
  }

  /** `setMonth` agrees with ECMA-262: the valid date whose day number is MakeDay of the new month. */
  lemma SetMonthFollowsMakeDay(d: Date, month0: int)
    requires Valid(d)
    ensures DayNumber(SetMonth(d, month0)) == MakeDay(d.year, month0, d.day)
  {
    NormalizeDayNumber(d.year + month0 / 12, month0 % 12 + 1, d.day);
  }

  /** `setFullYear` agrees with ECMA-262: the valid date whose day number is MakeDay of the new year. */
  lemma SetFullYearFollowsMakeDay(d: Date, year: int)
    requires Valid(d)
    ensures DayNumber(SetFullYear(d, year)) == MakeDay(year, d.month - 1, d.day)
  {
    assert (d.month - 1) / 12 == 0 && (d.month - 1) % 12 == d.month - 1;
    NormalizeDayNumber(year, d.month, d.day);
  }

  /** Moving a date to its own month leaves it where it is. */
  lemma SetMonthToSameMonth(d: Date)
    requires Valid(d)
    ensures SetMonth(d, d.month - 1) == d
  {
    assert (d.month - 1) / 12 == 0 && (d.month - 1) % 12 == d.month - 1;
  }

  /** A day that every month has (up to the 28th) survives `setMonth` unchanged. */
  lemma SetMonthKeepsEarlyDay(d: Date, month0: int)
    requires Valid(d) && d.day <= 28
    ensures SetMonth(d, month0) == Date(d.year + month0 / 12, month0 % 12 + 1, d.day)
  {
  }

  /** Calendar order: by year, then month, then day. */
  predicate Before(a: Date, b: Date)
  {
    a.year < b.year
    || (a.year == b.year && a.month < b.month)
    || (a.year == b.year && a.month == b.month && a.day < b.day)
  }

  lemma {:induction false} DayFromYearMonotone(y1: int, y2: int)
    requires y1 < y2
    ensures DayFromYear(y1) + DaysInYear(y1) <= DayFromYear(y2)
    decreases y2 - y1
  {
    YearLength(y1);
    if y1 + 1 < y2 {
      DayFromYearMonotone(y1 + 1, y2);
    }
  }

  /** Day numbers follow calendar order. */
  lemma DayNumberMonotone(a: Date, b: Date)
    requires Valid(a) && Valid(b) && Before(a, b)
    ensures DayNumber(a) < DayNumber(b)
  {
    if a.year < b.year {
      DayFromYearMonotone(a.year, b.year);
    }
  }

  /** So a day number names one valid date: `Normalize` is the only valid date MakeDay can mean. */
  lemma DayNumberInjective(a: Date, b: Date)
    requires Valid(a) && Valid(b) && DayNumber(a) == DayNumber(b)
    ensures a == b
  {
    if Before(a, b) {
      DayNumberMonotone(a, b);
    } else if Before(b, a) {
      DayNumberMonotone(b, a);
    }
  }

  /** Between valid dates, calendar order and day-number order agree. */
  lemma BeforeIffEarlier(a: Date, b: Date)
    requires Valid(a) && Valid(b)
    ensures Before(a, b) <==> DayNumber(a) < DayNumber(b)
  {
    if Before(a, b) {
      DayNumberMonotone(a, b);
    } else if a != b {
      assert Before(b, a);
      DayNumberMonotone(b, a);
    }
  }

  // ---- The text form `YYYY-MM-DD` ----

  predicate IsDigit(c: char)
  {
    '0' <= c <= '9'
  }

  predicate AllDigits(s: string)
  {
    forall i :: 0 <= i < |s| ==> IsDigit(s[i])
  }

  function DigitChar(n: int): (c: char)
    requires 0 <= n <= 9
    ensures IsDigit(c)
  {
    ('0' as int + n) as char
  }

  function Pow10(k: nat): (p: nat)
    ensures p >= 1
  {
    if k == 0 then 1 else 10 * Pow10(k - 1)
  }

  /** The last `width` decimal digits of `n`, padded with leading zeros. */
  function Digits(n: nat, width: nat): (s: string)
    ensures |s| == width && AllDigits(s)
  {
    if width == 0 then "" else Digits(n / 10, width - 1) + [DigitChar(n % 10)]
  }

  /** The number a string of decimal digits denotes. */
  function Value(s: string): (v: nat)
    requires AllDigits(s)
    ensures v < Pow10(|s|)
  {
    if s == [] then 0 else Value(s[..|s| - 1]) * 10 + (s[|s| - 1] as int - '0' as int)
  }

  lemma {:induction false} ValueOfDigits(n: nat, width: nat)
    requires n < Pow10(width)
    ensures Value(Digits(n, width)) == n
  {
    if width > 0 {
      ValueOfDigits(n / 10, width - 1);
      var s := Digits(n, width);
      assert s[..|s| - 1] == Digits(n / 10, width - 1);
    }
  }

  lemma {:induction false} DigitsOfValue(s: string)
    requires AllDigits(s)
    ensures Digits(Value(s), |s|) == s
  {
    if s != [] {
      var init := s[..|s| - 1];
      DigitsOfValue(init);
      assert Value(s) / 10 == Value(init);
      assert s == init + [s[|s| - 1]];
    }
  }

  /** The year as `toISOString` writes it: four digits, or a sign and six digits outside 0..9999. */
  function FormatYear(y: int): string
  {
    if 0 <= y <= 9999 then Digits(y, 4)
    else if y < 0 then "-" + Digits(-y, 6)
    else "+" + Digits(y, 6)
  }

  /** `date.toISOString().split("T")[0]`: the calendar date as `YYYY-MM-DD`. */
  function FormatDate(d: Date): (s: string)
    requires Valid(d)
    ensures |s| == if 0 <= d.year <= 9999 then 10 else 13
  {
    FormatYear(d.year) + "-" + Digits(d.month, 2) + "-" + Digits(d.day, 2)
  }

  /** `date.toISOString().slice(0, 7)`: the month as `YYYY-MM`. */
  function MonthKey(d: Date): (key: string)
    requires Valid(d)
    ensures |key| == 7
  {
    var f := FormatDate(d);
    assert |f| >= 10;
    f[..7]
  }

  /** The month key is the first seven characters of the formatted date. */
  lemma MonthKeyIsPrefix(d: Date)
    requires Valid(d)
    ensures |MonthKey(d)| == 7 && StartsWith(FormatDate(d), MonthKey(d))
  {
    assert |FormatDate(d)| >= 10;
  }

  /**
   * `new Date(s)` for the date-only form `YYYY-MM-DD`: `None` stands for an
   * Invalid Date (wrong shape, or a month or day outside the calendar).
   */
  function ParseDate(s: string): (r: Option<Date>)
    ensures r.Some? ==> Valid(r.value) && |s| == 10
  {
    if |s| == 10 && s[4] == '-' && s[7] == '-'
       && AllDigits(s[..4]) && AllDigits(s[5..7]) && AllDigits(s[8..])
    then
      var d := Date(Value(s[..4]), Value(s[5..7]), Value(s[8..]));
      if Valid(d) then Some(d) else None
    else None
  }

  /** The three fields of `YYYY-MM-DD` text sit at fixed positions. */
  lemma DateTextParts(y: string, m: string, d: string)
    requires |y| == 4 && |m| == 2 && |d| == 2
    ensures var s := y + "-" + m + "-" + d;
      |s| == 10 && s[4] == '-' && s[7] == '-' && s[..4] == y && s[5..7] == m && s[8..] == d
  {
  }

  /** Writing a date of years 0..9999 and reading it back gives the same date. */
  lemma FormatThenParse(d: Date)
    requires Valid(d) && 0 <= d.year <= 9999
    ensures ParseDate(FormatDate(d)) == Some(d)
  {
    var y, m, dd := Digits(d.year, 4), Digits(d.month, 2), Digits(d.day, 2);
    assert FormatDate(d) == y + "-" + m + "-" + dd;
    DateTextParts(y, m, dd);
    assert Pow10(2) == 100 && Pow10(4) == 10000;
    ValueOfDigits(d.year, 4);
    ValueOfDigits(d.month, 2);
    ValueOfDigits(d.day, 2);
  }

  /** A string that parses is exactly the text of the date it denotes. */
  lemma ParseThenFormat(s: string)
    requires ParseDate(s).Some?
    ensures FormatDate(ParseDate(s).value) == s
  {
    var y, m, dd := s[..4], s[5..7], s[8..];
    var d := ParseDate(s).value;
    assert d == Date(Value(y), Value(m), Value(dd));
    assert Pow10(4) == 10000;
    assert FormatYear(d.year) == Digits(Value(y), 4);
    DigitsOfValue(y);
    DigitsOfValue(m);
    DigitsOfValue(dd);
    assert FormatDate(d) == y + "-" + m + "-" + dd;
    assert s == y + "-" + m + "-" + dd;
  }

  /**
   * For dates of years 0..9999 the month key names the calendar month: two
   * dates have the same key exactly when they lie in the same month.
   */
  lemma MonthKeyIdentifiesMonth(a: Date, b: Date)
    requires Valid(a) && Valid(b) && 0 <= a.year <= 9999 && 0 <= b.year <= 9999
    ensures MonthKey(a) == MonthKey(b) <==> a.year == b.year && a.month == b.month
  {
    assert Pow10(2) == 100 && Pow10(4) == 10000;
    MonthKeyText(a);
    MonthKeyText(b);
    if MonthKey(a) == MonthKey(b) {
      assert Digits(a.year, 4) == MonthKey(a)[..4] == Digits(b.year, 4);
      assert Digits(a.month, 2) == MonthKey(a)[5..] == Digits(b.month, 2);
      ValueOfDigits(a.year, 4);
      ValueOfDigits(b.year, 4);
      ValueOfDigits(a.month, 2);
      ValueOfDigits(b.month, 2);
    }
  }

  /** The month key does not depend on the day: two dates of the same month share it. */
  lemma MonthKeyIgnoresDay(a: Date, b: Date)
    requires Valid(a) && Valid(b) && a.year == b.year && a.month == b.month
    ensures MonthKey(a) == MonthKey(b)
  {
    var p := FormatYear(a.year) + "-" + Digits(a.month, 2);
    assert |p| >= 7;
    assert FormatDate(a) == p + ("-" + Digits(a.day, 2));
    assert FormatDate(b) == p + ("-" + Digits(b.day, 2));
    assert FormatDate(a)[..7] == p[..7] == FormatDate(b)[..7];
  }

  /** Up to the 28th, the day does not change the month `setMonth` lands in. */
  lemma SetMonthKeyIgnoresEarlyDay(a: Date, b: Date, month0: int)
    requires Valid(a) && Valid(b) && a.day <= 28 && b.day <= 28
    requires a.year == b.year && a.month == b.month
    ensures MonthKey(SetMonth(a, month0)) == MonthKey(SetMonth(b, month0))
  {
    SetMonthKeyEarly(a, month0);
    SetMonthKeyEarly(b, month0);
  }

  /** Up to the 28th, `setMonth` lands in the month it names, whatever the day. */
  lemma SetMonthKeyEarly(d: Date, month0: int)
    requires Valid(d) && d.day <= 28
    ensures MonthKey(SetMonth(d, month0)) == MonthKey(Date(d.year + month0 / 12, month0 % 12 + 1, 1))
  {
    SetMonthKeepsEarlyDay(d, month0);
    MonthKeyIgnoresDay(SetMonth(d, month0), Date(d.year + month0 / 12, month0 % 12 + 1, 1));
  }

  /** For years 0..9999 the month key is the four-digit year, a dash and the two-digit month. */
  lemma MonthKeyText(d: Date)
    requires Valid(d) && 0 <= d.year <= 9999
    ensures MonthKey(d) == Digits(d.year, 4) + "-" + Digits(d.month, 2)
  {
    var p := Digits(d.year, 4) + "-" + Digits(d.month, 2);
    assert FormatDate(d) == p + ("-" + Digits(d.day, 2));
  }
}
