/**
 * Unix time and the proleptic Gregorian calendar, as used by the tick
 * parser's `time.Unix(...).UTC().Format("2006-01-02 15:04:05")` and by the
 * folder-name parse `time.Parse("2006-01-02", ...)`.
 *
 * Unix time follows "Seconds Since the Epoch" (POSIX.1-2017, Base Definitions,
 * section 4.16): every day has 86400 seconds and day 0 is 1970-01-01 UTC.
 */
module Calendar {
  import opened Text

  datatype Date = Date(year: int, month: int, day: int)

  datatype DateTime = DateTime(date: Date, hour: int, minute: int, second: int)

  const SecondsPerDay: nat := 86400

  predicate IsLeapYear(y: int) {
    y % 4 == 0 && (y % 100 != 0 || y % 400 == 0)
  }

  function DaysInYear(y: int): nat {
    if IsLeapYear(y) then 366 else 365
  }

  function DaysInMonth(y: int, m: int): nat
    requires 1 <= m <= 12
  {
    if m == 2 then (if IsLeapYear(y) then 29 else 28)
    else if m == 4 || m == 6 || m == 9 || m == 11 then 30
    else 31
  }

  /** Days of the year `y` before the first of month `m`. */
  function DaysBeforeMonth(y: int, m: int): nat
    requires 1 <= m <= 12
  {
    var common :=
      if m == 1 then 0 else if m == 2 then 31 else if m == 3 then 59
      else if m == 4 then 90 else if m == 5 then 120 else if m == 6 then 151
      else if m == 7 then 181 else if m == 8 then 212 else if m == 9 then 243
      else if m == 10 then 273 else if m == 11 then 304 else 334;
    common + (if m > 2 && IsLeapYear(y) then 1 else 0)
  }

  predicate ValidDate(d: Date) {
    1 <= d.month <= 12 && 1 <= d.day <= DaysInMonth(d.year, d.month)
  }

  predicate ValidDateTime(t: DateTime) {
    ValidDate(t.date) && 0 <= t.hour < 24 && 0 <= t.minute < 60 && 0 <= t.second < 60
  }

  /** Days from 1970-01-01 to January 1 of year `y` (negative before 1970). */
  function DaysBeforeYear(y: int): int
    decreases if y < 1970 then 1970 - y else y - 1970
  {
    if y == 1970 then 0
    else if y > 1970 then DaysBeforeYear(y - 1) + DaysInYear(y - 1)
    else DaysBeforeYear(y + 1) - DaysInYear(y)
  }

  /** Consecutive new-year days are a year's length apart. */
  lemma DaysBeforeYearStep(y: int)
    ensures DaysBeforeYear(y + 1) == DaysBeforeYear(y) + DaysInYear(y)
  {
  }

  /** Number of leap years among 1, ..., y (for y >= 0; used through differences). */
  function LeapYearsThrough(y: int): int {
    y / 4 - y / 100 + y / 400
  }

  lemma LeapDivisorsStep(y: int)
    ensures y / 4 - (y - 1) / 4 == if y % 4 == 0 then 1 else 0
    ensures y / 100 - (y - 1) / 100 == if y % 100 == 0 then 1 else 0
    ensures y / 400 - (y - 1) / 400 == if y % 400 == 0 then 1 else 0
  {
  }

  /** Passing year `y` adds one leap year exactly when `y` is a leap year. */
  lemma LeapYearsStep(y: int)
    ensures LeapYearsThrough(y) == LeapYearsThrough(y - 1) + (if IsLeapYear(y) then 1 else 0)
  {
    LeapDivisorsStep(y);
    if y % 400 == 0 {
      MultipleOf(y, 400, 100);
      MultipleOf(y, 400, 4);
    } else if y % 100 == 0 {
      MultipleOf(y, 100, 4);
    }
  }

  /** A multiple of `m` is a multiple of every divisor of `m`. */
  lemma MultipleOf(y: int, m: int, d: int)
    requires (m == 400 && (d == 100 || d == 4)) || (m == 100 && d == 4)
    requires y % m == 0
    ensures y % d == 0
  {
    var k := y / m;
    assert y == m * k;
    assert y == d * ((m / d) * k);
  }

  /** The closed form: 365 days a year plus one for each leap year passed. */
  lemma {:induction false} DaysBeforeYearClosedForm(y: int)
    requires y >= 1970
    ensures DaysBeforeYear(y) == 365 * (y - 1970) + LeapYearsThrough(y - 1) - LeapYearsThrough(1969)
    decreases y - 1970
  {
    if y > 1970 {
      DaysBeforeYearClosedForm(y - 1);
      LeapYearsStep(y - 1);
    }
  }

  lemma {:induction false} DaysBeforeYearMonotonic(y0: int, y: int)
    requires y0 <= y
    ensures DaysBeforeYear(y0) <= DaysBeforeYear(y)
    decreases y - y0
  {
    if y0 < y {
      DaysBeforeYearStep(y0);
      DaysBeforeYearMonotonic(y0 + 1, y);
    }
  }

  /** The day number of a date: days since 1970-01-01. */
  function EpochDay(d: Date): int
    requires ValidDate(d)
  {
    DaysBeforeYear(d.year) + DaysBeforeMonth(d.year, d.month) + d.day - 1
  }

  /** The year `n` days after January 1 of year `y`, and the day of that year. */
  function YearOf(n: nat, y: int): (r: (int, nat))
    ensures y <= r.0 && r.1 < DaysInYear(r.0)
    ensures DaysBeforeYear(r.0) + r.1 == DaysBeforeYear(y) + n
    decreases n
  {
    DaysBeforeYearStep(y);
    if n < DaysInYear(y) then (y, n) else YearOf(n - DaysInYear(y), y + 1)
  }

  /** The month and day of day `doy` (from 0) of year `y`, searching from month `m`. */
  function MonthOf(y: int, doy: nat, m: int): (r: (int, int))
    requires 1 <= m <= 12
    requires DaysBeforeMonth(y, m) <= doy < DaysInYear(y)
    ensures m <= r.0 <= 12 && 1 <= r.1 <= DaysInMonth(y, r.0)
    ensures DaysBeforeMonth(y, r.0) + r.1 - 1 == doy
    decreases 12 - m
  {
    if m == 12 || doy < DaysBeforeMonth(y, m + 1) then (m, doy - DaysBeforeMonth(y, m) + 1)
    else MonthOf(y, doy, m + 1)
  }

  /** The civil date of day number `n`. */
  function CivilFromDays(n: nat): (d: Date)
    ensures ValidDate(d) && d.year >= 1970
    ensures EpochDay(d) == n
  {
    var (y, doy) := YearOf(n, 1970);
    var (m, day) := MonthOf(y, doy, 1);
    Date(y, m, day)
  }

  lemma {:induction false} YearOfDate(y0: int, y: int, r: nat)
    requires y0 <= y && r < DaysInYear(y)
    ensures DaysBeforeYear(y) - DaysBeforeYear(y0) + r >= 0
    ensures YearOf(DaysBeforeYear(y) - DaysBeforeYear(y0) + r, y0) == (y, r)
    decreases y - y0
  {
    DaysBeforeYearMonotonic(y0, y);
    if y0 < y {
      DaysBeforeYearStep(y0);
      DaysBeforeYearMonotonic(y0 + 1, y);
      YearOfDate(y0 + 1, y, r);
    }
  }

  lemma {:induction false} MonthOfDate(y: int, m0: int, m: int, day: int)
    requires 1 <= m0 <= m <= 12 && 1 <= day <= DaysInMonth(y, m)
    ensures DaysBeforeMonth(y, m0) <= DaysBeforeMonth(y, m) + day - 1 < DaysInYear(y)
    ensures MonthOf(y, DaysBeforeMonth(y, m) + day - 1, m0) == (m, day)
    decreases m - m0
  {
    if m0 < m {
      MonthOfDate(y, m0 + 1, m, day);
    }
  }

  /** Every date from 1970 on is the civil date of its own day number. */
  lemma EpochDayRoundTrip(d: Date)
    requires ValidDate(d) && d.year >= 1970
    ensures EpochDay(d) >= 0 && CivilFromDays(EpochDay(d)) == d
  {
    var doy := DaysBeforeMonth(d.year, d.month) + d.day - 1;
    MonthOfDate(d.year, 1, d.month, d.day);
    YearOfDate(1970, d.year, doy);
  }

  /** Broken-down UTC time of a nonnegative Unix time. */
  function FromUnix(secs: nat): (t: DateTime)
    ensures ValidDateTime(t) && t.date.year >= 1970
  {
    var sod := secs % SecondsPerDay;
    DateTime(CivilFromDays(secs / SecondsPerDay), sod / 3600, sod % 3600 / 60, sod % 60)
  }

  /** Unix time of a broken-down UTC time. */
  function ToUnix(t: DateTime): int
    requires ValidDateTime(t)
  {
    EpochDay(t.date) * SecondsPerDay + t.hour * 3600 + t.minute * 60 + t.second
  }

  lemma UnixRoundTrip(secs: nat)
    ensures ToUnix(FromUnix(secs)) == secs
  {
    var sod := secs % SecondsPerDay;
    assert sod == sod / 3600 * 3600 + sod % 3600 / 60 * 60 + sod % 60;
  }

  lemma BrokenDownRoundTrip(t: DateTime)
    requires ValidDateTime(t) && t.date.year >= 1970
    ensures ToUnix(t) >= 0 && FromUnix(ToUnix(t)) == t
  {
    EpochDayRoundTrip(t.date);
    var sod := t.hour * 3600 + t.minute * 60 + t.second;
    var secs := ToUnix(t);
    assert 0 <= sod < SecondsPerDay;
    assert secs / SecondsPerDay == EpochDay(t.date) && secs % SecondsPerDay == sod;
    assert sod / 3600 == t.hour && sod % 3600 == t.minute * 60 + t.second;
  }

  /** Layout "2006-01-02": four-digit year, two-digit month and day. */
  function DateText(d: Date): string
    requires ValidDate(d) && d.year >= 0
  {
    PadNat(d.year, 4) + "-" + PadNat(d.month, 2) + "-" + PadNat(d.day, 2)
  }

  /** Layout "2006-01-02 15:04:05". */
  function DateTimeText(t: DateTime): string
    requires ValidDateTime(t) && t.date.year >= 0
  {
    DateText(t.date) + " " + ClockText(t.hour, t.minute, t.second)
  }

  /** Layout "15:04:05". */
  function ClockText(hour: nat, minute: nat, second: nat): string {
    PadNat(hour, 2) + ":" + PadNat(minute, 2) + ":" + PadNat(second, 2)
  }

  /**
   * The UTC rendering of a nonnegative Unix time, layout
   * "2006-01-02 15:04:05": before year 10000 it is 19 characters with the
   * separators at fixed places.
   */
  function UtcText(secs: nat): (r: string)
    ensures FromUnix(secs).date.year < 10000 ==>
      |r| == 19 && r[4] == '-' && r[7] == '-' && r[10] == ' ' && r[13] == ':' && r[16] == ':'
  {
    var t := FromUnix(secs);
    var r := DateTimeText(t);
    if t.date.year < 10000 then
      UtcLayout(t);
      r
    else r
  }

  lemma UtcLayout(t: DateTime)
    requires ValidDateTime(t) && 0 <= t.date.year < 10000
    ensures var r := DateTimeText(t);
      |r| == 19 && r[4] == '-' && r[7] == '-' && r[10] == ' ' && r[13] == ':' && r[16] == ':'
  {
    var r := DateTimeText(t);
    DateTimeTextLayout(t);
    DateTextLayout(t.date);
    ClockTextLayout(t.hour, t.minute, t.second);
    assert r[4] == r[..10][4] && r[7] == r[..10][7];
    assert r[13] == r[11..][2] && r[16] == r[11..][5];
  }

  /** The pieces of `a`, `x`, `b`, `y`, `c` written one after another. */
  lemma Fields3(a: string, x: char, b: string, y: char, c: string)
    ensures var r := a + [x] + b + [y] + c;
      && |r| == |a| + |b| + |c| + 2
      && r[..|a|] == a && r[|a|] == x && r[|a| + 1..|a| + 1 + |b|] == b
      && r[|a| + 1 + |b|] == y && r[|a| + 2 + |b|..] == c
  {
  }

  /** A date before year 10000 is written "YYYY-MM-DD": fixed-width fields between hyphens. */
  lemma DateTextLayout(d: Date)
    requires ValidDate(d) && 0 <= d.year < 10000
    ensures var r := DateText(d);
      && |r| == 10 && r[4] == '-' && r[7] == '-'
      && r[..4] == PadNat(d.year, 4) && r[5..7] == PadNat(d.month, 2) && r[8..] == PadNat(d.day, 2)
  {
    Fields3(PadNat(d.year, 4), '-', PadNat(d.month, 2), '-', PadNat(d.day, 2));
  }

  /** A time of day is written "HH:MM:SS": two-digit fields between colons. */
  lemma ClockTextLayout(hour: nat, minute: nat, second: nat)
    requires hour < 24 && minute < 60 && second < 60
    ensures var r := ClockText(hour, minute, second);
      && |r| == 8 && r[2] == ':' && r[5] == ':'
      && r[..2] == PadNat(hour, 2) && r[3..5] == PadNat(minute, 2) && r[6..] == PadNat(second, 2)
  {
    Fields3(PadNat(hour, 2), ':', PadNat(minute, 2), ':', PadNat(second, 2));
  }

  /** A time before year 10000 is written as its date, a space and its time of day, 19 characters. */
  lemma DateTimeTextLayout(t: DateTime)
    requires ValidDateTime(t) && 0 <= t.date.year < 10000
    ensures var r := DateTimeText(t);
      && |r| == 19 && r[10] == ' '
      && r[..10] == DateText(t.date) && r[11..] == ClockText(t.hour, t.minute, t.second)
  {
    DateTextLayout(t.date);
    ClockTextLayout(t.hour, t.minute, t.second);
  }

  /** Zero-padded numbers of one width are equal only when the numbers are. */
  lemma PadNatInjective(a: nat, b: nat, width: nat)
    requires PadNat(a, width) == PadNat(b, width)
    ensures a == b
  {
  }

  /** Distinct times before year 10000 are rendered as distinct texts. */
  lemma UtcTextInjective(a: nat, b: nat)
    requires FromUnix(a).date.year < 10000 && FromUnix(b).date.year < 10000
    requires UtcText(a) == UtcText(b)
    ensures a == b
  {
    var ta, tb := FromUnix(a), FromUnix(b);
    DateTimeTextLayout(ta);
    DateTimeTextLayout(tb);
    DateTextLayout(ta.date);
    DateTextLayout(tb.date);
    ClockTextLayout(ta.hour, ta.minute, ta.second);
    ClockTextLayout(tb.hour, tb.minute, tb.second);
    PadNatInjective(ta.date.year, tb.date.year, 4);
    PadNatInjective(ta.date.month, tb.date.month, 2);
    PadNatInjective(ta.date.day, tb.date.day, 2);
    PadNatInjective(ta.hour, tb.hour, 2);
    PadNatInjective(ta.minute, tb.minute, 2);
    PadNatInjective(ta.second, tb.second, 2);
    UnixRoundTrip(a);
    UnixRoundTrip(b);
  }

  // The worked example below is split into one small lemma per step (the
  // day number, each padded field, each concatenation of literals): the
  // verifier evaluates string literals character by character, and one
  // lemma holding every step at once costs it far more than the parts.

  /** The rendering of the Unix time of a broken-down time is that time's text. */
  lemma UtcTextOf(secs: nat, t: DateTime)
    requires ValidDateTime(t) && t.date.year >= 1970 && ToUnix(t) == secs
    ensures UtcText(secs) == DateTimeText(t)
  {
    BrokenDownRoundTrip(t);
  }

  /** 1641085200 seconds after the epoch is 2022-01-02 01:00:00 UTC. */
  lemma UtcTextExample()
    ensures UtcText(1641085200) == "2022-01-02 01:00:00"
  {
    var t := DateTime(Date(2022, 1, 2), 1, 0, 0);
    ExampleEpochDay();
    UtcTextOf(1641085200, t);
    ExampleDateTimeText();
  }

  lemma ExampleEpochDay()
    ensures EpochDay(Date(2022, 1, 2)) == 18994
  {
    DaysBeforeYearClosedForm(2022);
    assert LeapYearsThrough(2021) == 490 && LeapYearsThrough(1969) == 477;
  }

  lemma ExampleDateTimeText()
    ensures DateTimeText(DateTime(Date(2022, 1, 2), 1, 0, 0)) == "2022-01-02 01:00:00"
  {
    ExampleDateText();
    ExampleClockText();
    ExampleConcat();
  }

  lemma ExampleClockText()
    ensures ClockText(1, 0, 0) == "01:00:00"
  {
    PadExample(1, 2, "01");
    PadExample(0, 2, "00");
    ExampleClockConcat();
  }

  lemma ExampleDateText()
    ensures DateText(Date(2022, 1, 2)) == "2022-01-02"
  {
    PadExample(2022, 4, "2022");
    PadExample(1, 2, "01");
    PadExample(2, 2, "02");
    ExampleDateConcat();
  }

  lemma PadExample(n: nat, width: nat, text: string)
    requires (width == 2 && n < 10 && text == ['0', DigitChar(n)])
          || (width == 4 && 1000 <= n < 10000
              && text == [DigitChar(n / 1000), DigitChar(n / 100 % 10), DigitChar(n / 10 % 10), DigitChar(n % 10)])
    ensures PadNat(n, width) == text
  {
    if width == 2 {
      PadTwoDigits(n);
    } else {
      PadFourDigits(n);
    }
  }

  lemma ExampleDateConcat()
    ensures "2022" + "-" + "01" + "-" + "02" == "2022-01-02"
  {
  }

  lemma ExampleClockConcat()
    ensures "01" + ":" + "00" + ":" + "00" == "01:00:00"
  {
  }

  lemma ExampleConcat()
    ensures "2022-01-02" + " " + "01:00:00" == "2022-01-02 01:00:00"
  {
  }
}
