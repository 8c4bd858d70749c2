/**
 * The date and time handling the cache adapter relies on: the part of
 * Python's `datetime.fromisoformat` that the cached data uses, the
 * `datetime.strptime(s, "%Y-%m-%d")` fallback, and the mapping of a
 * `datetime` to a point on a time line (microseconds since 0001-01-01, the
 * proleptic Gregorian calendar of Python's `datetime`), which is how the
 * repository stores and compares timestamps.
 */
module Dates {
  import opened Optional

  /** A naive `datetime` to whole seconds. */
  datatype DateTime = DateTime(year: int, month: int, day: int, hour: int, minute: int, second: int)

  predicate IsLeapYear(y: int) {
    y % 4 == 0 && (y % 100 != 0 || y % 400 == 0)
  }

  function DaysInMonth(y: int, m: int): (n: int)
    requires 1 <= m <= 12
    ensures 28 <= n <= 31
  {
    if m == 2 then (if IsLeapYear(y) then 29 else 28)
    else if m == 4 || m == 6 || m == 9 || m == 11 then 30
    else 31
  }

  function DaysInYear(y: int): int {
    if IsLeapYear(y) then 366 else 365
  }

  /** The range checks `datetime(...)` makes: MINYEAR..MAXYEAR, a real calendar day, a time of day. */
  predicate Valid(d: DateTime) {
    && 1 <= d.year <= 9999
    && 1 <= d.month <= 12
    && 1 <= d.day <= DaysInMonth(d.year, d.month)
    && 0 <= d.hour < 24
    && 0 <= d.minute < 60
    && 0 <= d.second < 60
  }

  /** Builds the value, or `None` where `datetime(...)` raises ValueError. */
  function Checked(d: DateTime): (r: Option<DateTime>)
    ensures r.Some? <==> Valid(d)
    ensures r.Some? ==> r.value == d
  {
    if Valid(d) then Some(d) else None
  }

  // ---------------------------------------------------------------- digits

  predicate IsDigit(c: char) {
    '0' <= c <= '9'
  }

  predicate AllDigits(s: string) {
    forall k :: 0 <= k < |s| ==> IsDigit(s[k])
  }

  function DigitValue(c: char): (v: nat)
    requires IsDigit(c)
    ensures v <= 9
  {
    c as int - '0' as int
  }

  /** The decimal value of a string of ASCII digits. */
  function DecimalValue(s: string): nat
    requires AllDigits(s)
  {
    if s == [] then 0 else 10 * DecimalValue(s[..|s| - 1]) + DigitValue(s[|s| - 1])
  }

  function DigitChar(v: nat): (c: char)
    requires v <= 9
    ensures IsDigit(c) && DigitValue(c) == v
  {
    ('0' as int + v) as char
  }

  /** `n` written with exactly `width` decimal digits, zero padded. */
  function Padded(n: nat, width: nat): (s: string)
    ensures |s| == width
    ensures AllDigits(s)
  {
    if width == 0 then [] else Padded(n / 10, width - 1) + [DigitChar(n % 10)]
  }

  function Power10(k: nat): (p: nat)
    ensures p >= 1
  {
    if k == 0 then 1 else 10 * Power10(k - 1)
  }

  /** Reading back a number written with enough digits gives the number. */
  lemma {:induction false} PaddedValue(n: nat, width: nat)
    requires n < Power10(width)
    ensures DecimalValue(Padded(n, width)) == n
  {
    if width > 0 {
      var s := Padded(n, width);
      assert s[..|s| - 1] == Padded(n / 10, width - 1);
      assert n == 10 * (n / 10) + n % 10;
      PaddedValue(n / 10, width - 1);
    }
  }

  // ------------------------------------------------- datetime.fromisoformat

  /** `YYYY-MM-DD` at the front of `s`: the fixed-width date that `fromisoformat` reads first. */
  function IsoDatePrefix(s: string): (r: Option<DateTime>)
    requires |s| >= 10
    ensures r.Some? ==> r.value.hour == 0 && r.value.minute == 0 && r.value.second == 0
  {
    if s[4] == '-' && s[7] == '-' && AllDigits(s[..4]) && AllDigits(s[5..7]) && AllDigits(s[8..10]) then
      Some(DateTime(DecimalValue(s[..4]), DecimalValue(s[5..7]), DecimalValue(s[8..10]), 0, 0, 0))
    else None
  }

  /** The time that follows the separator: `HH`, `HH:MM` or `HH:MM:SS`, as (hour, minute, second). */
  function IsoTime(t: string): Option<(int, int, int)> {
    if |t| == 2 && AllDigits(t) then
      Some((DecimalValue(t), 0, 0))
    else if |t| == 5 && t[2] == ':' && AllDigits(t[..2]) && AllDigits(t[3..5]) then
      Some((DecimalValue(t[..2]), DecimalValue(t[3..5]), 0))
    else if |t| == 8 && t[2] == ':' && t[5] == ':' && AllDigits(t[..2]) && AllDigits(t[3..5]) && AllDigits(t[6..8]) then
      Some((DecimalValue(t[..2]), DecimalValue(t[3..5]), DecimalValue(t[6..8])))
    else None
  }

  /**
   * `datetime.fromisoformat(s)`, `None` where it raises ValueError: a date
   * `YYYY-MM-DD`, optionally followed by any one separator character and a
   * time `HH[:MM[:SS]]`.
   */
  function FromIsoFormat(s: string): (r: Option<DateTime>)
    ensures r.Some? ==> Valid(r.value)
  {
    if |s| < 10 then None
    else match IsoDatePrefix(s)
      case None => None
      case Some(d) =>
        if |s| == 10 then Checked(d)
        else match IsoTime(s[11..])
          case None => None
          case Some((h, mi, sec)) => Checked(d.(hour := h, minute := mi, second := sec))
  }

  /** `date.isoformat()`: `YYYY-MM-DD`, zero padded. */
  function IsoDateString(d: DateTime): (s: string)
    requires Valid(d)
    ensures |s| == 10
  {
    Padded(d.year, 4) + "-" + Padded(d.month, 2) + "-" + Padded(d.day, 2)
  }

  /** `fromisoformat` reads back the calendar date `isoformat` writes, at midnight. */
  lemma FromIsoFormatOfDate(d: DateTime)
    requires Valid(d) && d.hour == 0 && d.minute == 0 && d.second == 0
    ensures FromIsoFormat(IsoDateString(d)) == Some(d)
  {
    var s := IsoDateString(d);
    assert s[..4] == Padded(d.year, 4);
    assert s[5..7] == Padded(d.month, 2);
    assert s[8..10] == Padded(d.day, 2);
    PaddedValue(d.year, 4);
    PaddedValue(d.month, 2);
    PaddedValue(d.day, 2);
  }

  // ------------------------------------------------ strptime(s, "%Y-%m-%d")

  /** A token `%m` matches in full: `1[0-2]|0[1-9]|[1-9]`. */
  predicate MonthToken(m: string) {
    || (|m| == 1 && '1' <= m[0] <= '9')
    || (|m| == 2 && m[0] == '1' && '0' <= m[1] <= '2')
    || (|m| == 2 && m[0] == '0' && '1' <= m[1] <= '9')
  }

  /** A token `%d` matches in full: `3[01]|[12]\d|0[1-9]|[1-9]| [1-9]`. */
  predicate DayToken(d: string) {
    || (|d| == 1 && '1' <= d[0] <= '9')
    || (|d| == 2 && d[0] == '3' && '0' <= d[1] <= '1')
    || (|d| == 2 && '1' <= d[0] <= '2' && IsDigit(d[1]))
    || (|d| == 2 && d[0] == '0' && '1' <= d[1] <= '9')
    || (|d| == 2 && d[0] == ' ' && '1' <= d[1] <= '9')
  }

  function TokenValue(t: string): nat
    requires MonthToken(t) || DayToken(t)
  {
    if |t| == 1 then DigitValue(t[0])
    else if t[0] == ' ' then DigitValue(t[1])
    else 10 * DigitValue(t[0]) + DigitValue(t[1])
  }

  /**
   * `datetime.strptime(s, "%Y-%m-%d")`, `None` where it raises ValueError:
   * four digits, a dash, a one- or two-digit month, a dash, a one- or
   * two-digit day (or a space and a digit), nothing after it, and a real
   * calendar date.
   */
  function StrptimeYmd(s: string): (r: Option<DateTime>)
    ensures r.Some? ==> Valid(r.value)
    ensures r.Some? ==> r.value.hour == 0 && r.value.minute == 0 && r.value.second == 0
    ensures r.Some? ==> 7 <= |s| <= 10 && s[4] == '-'
  {
    if |s| < 5 || !AllDigits(s[..4]) || s[4] != '-' then None
    else
      var rest := s[5..];
      var cut := if |rest| >= 2 && rest[1] == '-' then 1 else if |rest| >= 3 && rest[2] == '-' then 2 else 0;
      if cut == 0 then None
      else
        var m, d := rest[..cut], rest[cut + 1..];
        if MonthToken(m) && DayToken(d) then
          Checked(DateTime(DecimalValue(s[..4]), TokenValue(m), TokenValue(d), 0, 0, 0))
        else None
  }

  /**
   * The fields a `YYYY-MM-DD` string can write down: a four-digit year, a
   * month, a day of at most 31, and midnight. The day need not exist in
   * that month.
   */
  predicate Writable(d: DateTime) {
    && 1 <= d.year <= 9999
    && 1 <= d.month <= 12
    && 1 <= d.day <= 31
    && d.hour == 0 && d.minute == 0 && d.second == 0
  }

  /** A date written `YYYY-M-D`, each of month and day in `mw` and `dw` digits, zero padded. */
  function DateString(d: DateTime, mw: nat, dw: nat): (s: string)
    requires Writable(d)
    ensures |s| == 6 + mw + dw
    ensures Valid(d) && mw == 2 && dw == 2 ==> s == IsoDateString(d)
  {
    Padded(d.year, 4) + "-" + Padded(d.month, mw) + "-" + Padded(d.day, dw)
  }

  /** The one or two digits `Padded` writes. */
  lemma PaddedShort(n: nat, width: nat)
    requires 1 <= width <= 2
    ensures width == 1 ==> Padded(n, width) == [DigitChar(n % 10)]
    ensures width == 2 ==> Padded(n, width) == [DigitChar(n / 10 % 10), DigitChar(n % 10)]
  {
    if width == 2 {
      assert Padded(n, 2) == Padded(n / 10, 1) + [DigitChar(n % 10)];
    }
  }

  /** A month written in one digit (when it has one) or two is a `%m` token worth the month. */
  lemma MonthTokenOf(n: nat, width: nat)
    requires 1 <= n <= 12 && 1 <= width <= 2 && (width == 1 ==> n <= 9)
    ensures MonthToken(Padded(n, width)) && TokenValue(Padded(n, width)) == n
  {
    PaddedShort(n, width);
  }

  /** A day written in one digit (when it has one) or two is a `%d` token worth the day. */
  lemma DayTokenOf(n: nat, width: nat)
    requires 1 <= n <= 31 && 1 <= width <= 2 && (width == 1 ==> n <= 9)
    ensures DayToken(Padded(n, width)) && TokenValue(Padded(n, width)) == n
  {
    PaddedShort(n, width);
  }

  /**
   * `strptime(s, "%Y-%m-%d")` reads the fields of every date written with a
   * four-digit year and a month and a day of one or two digits each, and
   * accepts them exactly when they form a calendar date.
   */
  lemma StrptimeYmdReads(d: DateTime, mw: nat, dw: nat)
    requires Writable(d)
    requires 1 <= mw <= 2 && 1 <= dw <= 2
    requires mw == 1 ==> d.month <= 9
    requires dw == 1 ==> d.day <= 9
    ensures StrptimeYmd(DateString(d, mw, dw)) == Checked(d)
  {
    var s := DateString(d, mw, dw);
    var m, dd := Padded(d.month, mw), Padded(d.day, dw);
    assert s[..4] == Padded(d.year, 4) && s[4] == '-';
    var rest := s[5..];
    assert rest == m + "-" + dd;
    MonthTokenOf(d.month, mw);
    DayTokenOf(d.day, dw);
    PaddedShort(d.month, mw);
    assert rest[mw] == '-' && rest[..mw] == m && rest[mw + 1..] == dd;
    assert Power10(4) == 10000;
    PaddedValue(d.year, 4);
  }

  /** ...so every calendar date so written reads back as itself. */
  lemma StrptimeYmdOfDate(d: DateTime, mw: nat, dw: nat)
    requires Valid(d) && d.hour == 0 && d.minute == 0 && d.second == 0
    requires 1 <= mw <= 2 && 1 <= dw <= 2
    requires mw == 1 ==> d.month <= 9
    requires dw == 1 ==> d.day <= 9
    ensures StrptimeYmd(DateString(d, mw, dw)) == Some(d)
  {
    StrptimeYmdReads(d, mw, dw);
  }

  /**
   * `fromisoformat` reads the fields of every zero-padded `YYYY-MM-DD` and
   * accepts them exactly when they form a calendar date.
   */
  lemma FromIsoFormatReads(d: DateTime)
    requires Writable(d)
    ensures FromIsoFormat(DateString(d, 2, 2)) == Checked(d)
  {
    var s := DateString(d, 2, 2);
    assert s[..4] == Padded(d.year, 4);
    assert s[5..7] == Padded(d.month, 2);
    assert s[8..10] == Padded(d.day, 2);
    assert Power10(4) == 10000 && Power10(2) == 100;
    PaddedValue(d.year, 4);
    PaddedValue(d.month, 2);
    PaddedValue(d.day, 2);
  }

  // ---------------------------------------------------------- the time line

  const MicrosPerSecond: int := 1_000_000
  const SecondsPerDay: int := 86_400
  const MicrosPerDay: int := SecondsPerDay * MicrosPerSecond

  /** Days from 0001-01-01 to the first day of year `y`. */
  function DaysBeforeYear(y: int): int
    requires y >= 1
  {
    var p := y - 1;
    p * 365 + p / 4 - p / 100 + p / 400
  }

  /** Days from the first day of year `y` to the first day of month `m`. */
  function DaysBeforeMonth(y: int, m: int): int
    requires 1 <= m <= 12
  {
    (if m > 2 && IsLeapYear(y) then 1 else 0) +
    [0, 31, 59, 90, 120, 151, 181, 212, 243, 273, 304, 334][m - 1]
  }

  /** `date.toordinal()`: 0001-01-01 is day 1. */
  function Ordinal(d: DateTime): int
    requires Valid(d)
  {
    DaysBeforeYear(d.year) + DaysBeforeMonth(d.year, d.month) + d.day
  }

  /** The instant `d` names, in microseconds since 0001-01-01T00:00:00. */
  function ToTimestamp(d: DateTime): int
    requires Valid(d)
  {
    ((Ordinal(d) - 1) * SecondsPerDay + d.hour * 3600 + d.minute * 60 + d.second) * MicrosPerSecond
  }

  /** The order Python's `datetime` comparison uses: field by field, year first. */
  predicate Before(a: DateTime, b: DateTime) {
    if a.year != b.year then a.year < b.year
    else if a.month != b.month then a.month < b.month
    else if a.day != b.day then a.day < b.day
    else if a.hour != b.hour then a.hour < b.hour
    else if a.minute != b.minute then a.minute < b.minute
    else a.second < b.second
  }

  lemma DaysBeforeYearStep(y: int)
    requires y >= 1
    ensures DaysBeforeYear(y + 1) == DaysBeforeYear(y) + DaysInYear(y)
  {
    var p := y - 1;
    assert (p + 1) / 4 - p / 4 == (if y % 4 == 0 then 1 else 0);
    assert (p + 1) / 100 - p / 100 == (if y % 100 == 0 then 1 else 0);
    assert (p + 1) / 400 - p / 400 == (if y % 400 == 0 then 1 else 0);
  }

  lemma {:induction false} DaysBeforeYearGrows(y: int, z: int)
    requires 1 <= y < z
    ensures DaysBeforeYear(y) + DaysInYear(y) <= DaysBeforeYear(z)
    decreases z - y
  {
    DaysBeforeYearStep(y);
    if y + 1 < z {
      DaysBeforeYearGrows(y + 1, z);
    }
  }

  lemma DaysBeforeMonthStep(y: int, m: int)
    requires 1 <= m < 12
    ensures DaysBeforeMonth(y, m) + DaysInMonth(y, m) == DaysBeforeMonth(y, m + 1)
  {
  }

  lemma {:induction false} DaysBeforeMonthGrows(y: int, m: int, n: int)
    requires 1 <= m < n <= 12
    ensures DaysBeforeMonth(y, m) + DaysInMonth(y, m) <= DaysBeforeMonth(y, n)
    decreases n - m
  {
    DaysBeforeMonthStep(y, m);
    if m + 1 < n {
      DaysBeforeMonthGrows(y, m + 1, n);
    }
  }

  /** Every day of year `y` falls before the first day of year `y + 1`. */
  lemma DayOfYearBound(d: DateTime)
    requires Valid(d)
    ensures DaysBeforeMonth(d.year, d.month) + d.day <= DaysInYear(d.year)
  {
  }

  lemma OrdinalOrder(a: DateTime, b: DateTime)
    requires Valid(a) && Valid(b)
    requires (a.year, a.month, a.day) != (b.year, b.month, b.day)
    requires a.year < b.year || (a.year == b.year && (a.month < b.month || (a.month == b.month && a.day < b.day)))
    ensures Ordinal(a) < Ordinal(b)
  {
    if a.year < b.year {
      DayOfYearBound(a);
      DaysBeforeYearGrows(a.year, b.year);
    } else if a.month < b.month {
      DaysBeforeMonthGrows(a.year, a.month, b.month);
    }
  }

  /**
   * Timestamps order instants exactly as Python orders `datetime` values, so
   * comparing the stored integers is comparing the datetimes.
   */
  lemma TimestampOrder(a: DateTime, b: DateTime)
    requires Valid(a) && Valid(b)
    ensures Before(a, b) <==> ToTimestamp(a) < ToTimestamp(b)
    ensures a == b <==> ToTimestamp(a) == ToTimestamp(b)
  {
    if (a.year, a.month, a.day) != (b.year, b.month, b.day) {
      if Before(a, b) {
        OrdinalOrder(a, b);
      } else {
        OrdinalOrder(b, a);
      }
    }
  }

  /** The first and the last second `datetime` can hold: 0001-01-01T00:00:00 and 9999-12-31T23:59:59. */
  const First: DateTime := DateTime(1, 1, 1, 0, 0, 0)
  const Last: DateTime := DateTime(9999, 12, 31, 23, 59, 59)

  /** The last instant `datetime` can hold, 9999-12-31T23:59:59.999999, in microseconds. */
  const MaxInstant: int := DaysBeforeYear(10000) * MicrosPerDay - 1

  /**
   * The ends of the `datetime` range on the time line: 0001-01-01T00:00:00 is
   * instant 0, and the last microsecond of 9999-12-31 is `MaxInstant`.
   */
  lemma RangeEnds()
    ensures Valid(First) && Valid(Last)
    ensures ToTimestamp(First) == 0
    ensures ToTimestamp(Last) + MicrosPerSecond - 1 == MaxInstant
  {
    assert DaysBeforeYear(9999) == 3651694;
    assert DaysBeforeYear(10000) == 3652059;
    assert Ordinal(Last) == 3652059;
  }
}
