/** Calendar dates as Ruby's `Date` sees them: a civil date (year, month, day) in the
    proleptic Gregorian calendar together with its day number. Comparison of dates is
    comparison of day numbers (Ruby compares by Julian day number), `d - n` moves back
    `n` day numbers, and `d << n` (`ShiftMonthsBack`) moves back `n` calendar months,
    clamping the day to the end of the target month. */
module Dates {

  import opened Wrappers
  import opened Text

  datatype Date = Date(year: int, month: int, day: int)

  predicate IsLeapYear(y: int)
  {
    y % 4 == 0 && (y % 100 != 0 || y % 400 == 0)
  }

  function DaysInMonth(y: int, m: int): (n: int)
    requires 1 <= m <= 12
    ensures 28 <= n <= 31
  {
    if m == 2 then (if IsLeapYear(y) then 29 else 28)
    else if m == 4 || m == 6 || m == 9 || m == 11 then 30
    else 31
  }

  /** A civil date Ruby's `Date.valid_civil?` accepts. */
  predicate ValidDate(d: Date)
  {
    1 <= d.month <= 12 && 1 <= d.day <= DaysInMonth(d.year, d.month)
  }

  /** Days in the years before year `y`, counted from 0001-01-01. */
  function DaysBeforeYear(y: int): int
  {
    var p := y - 1;
    365 * p + p / 4 - p / 100 + p / 400
  }

  /** Days in the months of year `y` before month `m`. */
  function DaysBeforeMonth(y: int, m: int): int
    requires 1 <= m <= 13
    decreases m
  {
    if m == 1 then 0 else DaysBeforeMonth(y, m - 1) + DaysInMonth(y, m - 1)
  }

  /** The day number of a date: 0001-01-01 is day 1 and each day adds one. */
  function DayNumber(d: Date): int
    requires ValidDate(d)
  {
    DaysBeforeYear(d.year) + DaysBeforeMonth(d.year, d.month) + d.day
  }

  /** Ruby's `Date#wday`: 0 is Sunday, 1 is Monday, ..., 6 is Saturday. */
  function Weekday(d: Date): (w: int)
    requires ValidDate(d)
    ensures 0 <= w < 7
  {
    DayNumber(d) % 7
  }

  /** Day number of the Modified Julian Day epoch, 1858-11-17. */
  const MjdEpoch: int := 678576

  /** Ruby's `Date#mjd`. */
  function Mjd(d: Date): int
    requires ValidDate(d)
  {
    DayNumber(d) - MjdEpoch
  }

  /** Months counted from January of year 0: the position of a date's month on the month line. */
  function MonthIndex(d: Date): int
  {
    12 * d.year + d.month - 1
  }

  /** Ruby's `Date#>>`: `n` calendar months later (earlier when `n` is negative);
      when the day does not exist in the target month it becomes that month's last day. */
  function ShiftMonths(d: Date, n: int): (r: Date)
    requires ValidDate(d)
    ensures ValidDate(r)
    ensures MonthIndex(r) == MonthIndex(d) + n
    ensures r.day == if d.day <= DaysInMonth(r.year, r.month) then d.day else DaysInMonth(r.year, r.month)
  {
    var t := 12 * d.year + (d.month - 1) + n;
    var y := t / 12;
    var m := t % 12 + 1;
    var last := DaysInMonth(y, m);
    Date(y, m, if d.day <= last then d.day else last)
  }

  /** Ruby's `Date#<<`, which is `d >> -n`. */
  function ShiftMonthsBack(d: Date, n: int): (r: Date)
    requires ValidDate(d)
    ensures ValidDate(r)
  {
    ShiftMonths(d, -n)
  }

  // ---------------------------------------------------------------------------
  // Day numbers follow the calendar.

  /** The day number just before the first day of month `t` of the month line. */
  function MonthStart(t: int): int
  {
    DaysBeforeYear(t / 12) + DaysBeforeMonth(t / 12, t % 12 + 1)
  }

  function MonthLength(t: int): int
  {
    DaysInMonth(t / 12, t % 12 + 1)
  }

  lemma DayNumberByMonth(d: Date)
    requires ValidDate(d)
    ensures DayNumber(d) == MonthStart(MonthIndex(d)) + d.day
    ensures MonthLength(MonthIndex(d)) == DaysInMonth(d.year, d.month)
  {
    var t := MonthIndex(d);
    assert t / 12 == d.year && t % 12 == d.month - 1;
  }

  lemma DivisionStep(y: int)
    ensures y / 4 - (y - 1) / 4 == (if y % 4 == 0 then 1 else 0)
    ensures y / 100 - (y - 1) / 100 == (if y % 100 == 0 then 1 else 0)
    ensures y / 400 - (y - 1) / 400 == (if y % 400 == 0 then 1 else 0)
    ensures y % 100 == 0 ==> y % 4 == 0
    ensures y % 400 == 0 ==> y % 100 == 0
  {
  }

  lemma YearLength(y: int)
    ensures DaysBeforeYear(y + 1) == DaysBeforeYear(y) + DaysBeforeMonth(y, 13)
  {
    DivisionStep(y);
    assert DaysBeforeMonth(y, 13) == 365 + (if IsLeapYear(y) then 1 else 0) by {
      assert DaysBeforeMonth(y, 2) == 31;
      assert DaysBeforeMonth(y, 3) == 31 + DaysInMonth(y, 2);
      assert DaysBeforeMonth(y, 4) == 62 + DaysInMonth(y, 2);
      assert DaysBeforeMonth(y, 5) == 92 + DaysInMonth(y, 2);
      assert DaysBeforeMonth(y, 6) == 123 + DaysInMonth(y, 2);
      assert DaysBeforeMonth(y, 7) == 153 + DaysInMonth(y, 2);
      assert DaysBeforeMonth(y, 8) == 184 + DaysInMonth(y, 2);
      assert DaysBeforeMonth(y, 9) == 215 + DaysInMonth(y, 2);
      assert DaysBeforeMonth(y, 10) == 245 + DaysInMonth(y, 2);
      assert DaysBeforeMonth(y, 11) == 276 + DaysInMonth(y, 2);
      assert DaysBeforeMonth(y, 12) == 306 + DaysInMonth(y, 2);
    }
  }

  /** Consecutive months of the month line are adjacent on the day line. */
  lemma MonthStartStep(t: int)
    ensures MonthStart(t + 1) == MonthStart(t) + MonthLength(t)
  {
    var y := t / 12;
    if t % 12 == 11 {
      assert (t + 1) / 12 == y + 1 && (t + 1) % 12 == 0;
      YearLength(y);
    } else {
      assert (t + 1) / 12 == y && (t + 1) % 12 == t % 12 + 1;
    }
  }

  lemma {:induction false} MonthStartMonotone(a: int, b: int)
    requires a < b
    ensures MonthStart(a) + MonthLength(a) <= MonthStart(b)
    decreases b - a
  {
    MonthStartStep(a);
    if a + 1 < b {
      MonthStartMonotone(a + 1, b);
    }
  }

  /** A date in an earlier month has a smaller day number. */
  lemma EarlierMonthEarlierDay(a: Date, b: Date)
    requires ValidDate(a) && ValidDate(b)
    requires MonthIndex(a) < MonthIndex(b)
    ensures DayNumber(a) < DayNumber(b)
  {
    DayNumberByMonth(a);
    DayNumberByMonth(b);
    MonthStartMonotone(MonthIndex(a), MonthIndex(b));
  }

  /** Moving further back in months never gives a later date, and moving back by at
      least one month gives a date strictly before the starting date. */
  lemma ShiftMonthsBackMonotone(d: Date, n1: int, n2: int)
    requires ValidDate(d)
    requires n1 < n2
    ensures DayNumber(ShiftMonthsBack(d, n2)) < DayNumber(ShiftMonthsBack(d, n1))
  {
    EarlierMonthEarlierDay(ShiftMonthsBack(d, n2), ShiftMonthsBack(d, n1));
  }

  lemma ShiftMonthsZero(d: Date)
    requires ValidDate(d)
    ensures ShiftMonths(d, 0) == d
  {
    assert (12 * d.year + (d.month - 1)) / 12 == d.year;
  }

  // ---------------------------------------------------------------------------
  // Text forms.

  /** `Date.strptime(s, '%Y%m%d')` for the eight digits captured from a file name:
      four digits of year, two of month, two of day; an impossible date raises. */
  function ParseYmd(s: string): (r: Result<Date>)
    requires |s| == 8 && AllDigits(s)
    ensures r.Ok? ==> ValidDate(r.value) && 0 <= r.value.year <= 9999
  {
    var d := Date(DecimalValue(s[..4]), DecimalValue(s[4..6]), DecimalValue(s[6..]));
    assert DecimalValue(s[..4]) <= 9999 by { DecimalBound(s[..4]); }
    if ValidDate(d) then Ok(d) else Err("invalid date")
  }

  /** Ruby's `strftime('%Y%m%d')` for a date whose year has at most four digits. */
  function YmdText(d: Date): string
    requires 0 <= d.year <= 9999 && ValidDate(d)
  {
    PaddedDecimal(d.year, 4) + PaddedDecimal(d.month, 2) + PaddedDecimal(d.day, 2)
  }

  lemma {:induction false} DecimalBound(s: string)
    requires AllDigits(s)
    ensures DecimalValue(s) < Pow10(|s|)
    decreases |s|
  {
    if s != [] {
      DecimalBound(s[..|s| - 1]);
    }
  }

  lemma SlicesOfThree(a: string, b: string, c: string)
    requires |a| == 4 && |b| == 2 && |c| == 2
    ensures (a + b + c)[..4] == a && (a + b + c)[4..6] == b && (a + b + c)[6..] == c
  {
  }

  /** Writing a date as `%Y%m%d` and parsing it back gives the date again. */
  lemma YmdRoundTrip(d: Date)
    requires 0 <= d.year <= 9999 && ValidDate(d)
    ensures |YmdText(d)| == 8 && AllDigits(YmdText(d))
    ensures ParseYmd(YmdText(d)) == Ok(d)
  {
    assert Pow10(2) == 100 && Pow10(4) == 10000;
    var a, b, c := PaddedDecimal(d.year, 4), PaddedDecimal(d.month, 2), PaddedDecimal(d.day, 2);
    PaddedDecimalRoundTrip(d.year, 4);
    PaddedDecimalRoundTrip(d.month, 2);
    PaddedDecimalRoundTrip(d.day, 2);
    SlicesOfThree(a, b, c);
    var s := a + b + c;
    assert AllDigits(s) by {
      forall i | 0 <= i < |s| ensures IsDigit(s[i]) {
        if i < 4 { assert s[i] == a[i]; } else if i < 6 { assert s[i] == b[i - 4]; } else { assert s[i] == c[i - 6]; }
      }
    }
    assert s == YmdText(d);
  }

  /** Ruby's `Date#to_s` (`%Y-%m-%d`, the year padded to four digits). */
  function IsoText(d: Date): string
  {
    var y := if d.year < 0 then "-" + PadTo4(-d.year) else PadTo4(d.year);
    y + "-" + PaddedDecimal(if d.month < 0 then 0 else d.month, 2)
      + "-" + PaddedDecimal(if d.day < 0 then 0 else d.day, 2)
  }

  function PadTo4(n: nat): string
  {
    if n < 10000 then PaddedDecimal(n, 4) else NatToString(n)
  }
}
