/**
  The calendar arithmetic behind `time.strptime(s, "%Y%m%d")` and the subtraction of two
  `datetime` values: which 8-digit strings name a real proleptic-Gregorian date, and the
  ordinal day number whose differences are the `days` of a `timedelta`.
 */
module Calendar {
  import opened Wrappers
  import opened Strings

  datatype Date = Date(year: int, month: int, day: int)

  predicate IsLeap(year: int)
  {
    year % 4 == 0 && (year % 100 != 0 || year % 400 == 0)
  }

  function DaysInYear(year: int): int
  {
    if IsLeap(year) then 366 else 365
  }

  function DaysInMonth(year: int, month: int): (n: int)
    requires 1 <= month <= 12
    ensures 28 <= n <= 31
  {
    if month == 2 then (if IsLeap(year) then 29 else 28)
    else if month in {4, 6, 9, 11} then 30
    else 31
  }

  /** The range `datetime` accepts: years 1 to 9999, a real month, a day within that month. */
  predicate ValidDate(d: Date)
  {
    1 <= d.year <= 9999 && 1 <= d.month <= 12 && 1 <= d.day <= DaysInMonth(d.year, d.month)
  }

  /**
    `strptime(s, "%Y%m%d")` on an 8-character string: four digits of year, two of month,
    two of day, naming a valid date; anything else is a parse error.
   */
  function ParseDate(s: string): (r: Option<Date>)
    ensures r.Some? ==> ValidDate(r.value) && |s| == 8 && AllDigits(s)
  {
    if |s| == 8 && AllDigits(s) then
      var d := Date(Value(s[..4]), Value(s[4..6]), Value(s[6..]));
      if ValidDate(d) then Some(d) else None
    else None
  }

  /** `d.strftime("%Y%m%d")`: the zero-padded 8-digit spelling of a date. */
  function Format(d: Date): string
    requires ValidDate(d)
  {
    Pad(d.year, 4) + Pad(d.month, 2) + Pad(d.day, 2)
  }

  /** Formatting a valid date and parsing it back gives the date. */
  lemma FormatThenParse(d: Date)
    requires ValidDate(d)
    ensures ParseDate(Format(d)) == Some(d)
  {
    var y, m, dd := Pad(d.year, 4), Pad(d.month, 2), Pad(d.day, 2);
    var s := y + m + dd;
    assert s[..4] == y && s[4..6] == m && s[6..] == dd;
    assert AllDigits(s) by {
      forall i | 0 <= i < 8 ensures IsDigit(s[i]) {
        if i < 4 { assert s[i] == y[i]; }
        else if i < 6 { assert s[i] == m[i - 4]; }
        else { assert s[i] == dd[i - 6]; }
      }
    }
    ValuePad(d.year, 4);
    ValuePad(d.month, 2);
    ValuePad(d.day, 2);
    assert Date(Value(s[..4]), Value(s[4..6]), Value(s[6..])) == d;
  }

  /** A string that parses is exactly the formatting of the date it names. */
  lemma ParseThenFormat(s: string)
    requires ParseDate(s).Some?
    ensures Format(ParseDate(s).value) == s
  {
    assert AllDigits(s[..4]) && AllDigits(s[4..6]) && AllDigits(s[6..]);
    PadValue(s[..4]);
    PadValue(s[4..6]);
    PadValue(s[6..]);
    assert s == s[..4] + s[4..6] + s[6..];
  }

  /** Python's `_days_before_year`: days in the years before `year`, from 1 January of year 1. */
  function DaysBeforeYear(year: int): int
    requires year >= 1
  {
    var y := year - 1;
    y * 365 + y / 4 - y / 100 + y / 400
  }

  /** Python's `_days_before_month`: days in the year before the first of `month`. */
  function DaysBeforeMonth(year: int, month: int): int
    requires 1 <= month <= 12
  {
    [0, 31, 59, 90, 120, 151, 181, 212, 243, 273, 304, 334][month - 1]
      + (if month > 2 && IsLeap(year) then 1 else 0)
  }

  /** Python's `_ymd2ord` (`date.toordinal()`): 1 January of year 1 is day 1. */
  function DayNumber(d: Date): int
    requires d.year >= 1 && 1 <= d.month <= 12
  {
    DaysBeforeYear(d.year) + DaysBeforeMonth(d.year, d.month) + d.day
  }

  /** Each year adds its own length to the day count. */
  lemma DaysBeforeYearStep(year: int)
    requires year >= 1
    ensures DaysBeforeYear(year + 1) == DaysBeforeYear(year) + DaysInYear(year)
  {
    var y := year - 1;
    FloorStep4(y);
    FloorStep100(y);
    FloorStep400(y);
  }

  lemma FloorStep4(n: nat)
    ensures (n + 1) / 4 == n / 4 + (if (n + 1) % 4 == 0 then 1 else 0)
  {
  }

  lemma FloorStep100(n: nat)
    ensures (n + 1) / 100 == n / 100 + (if (n + 1) % 100 == 0 then 1 else 0)
  {
  }

  lemma FloorStep400(n: nat)
    ensures (n + 1) / 400 == n / 400 + (if (n + 1) % 400 == 0 then 1 else 0)
  {
  }

  /** Each month adds its own length to the day count of the year. */
  lemma DaysBeforeMonthStep(year: int, month: int)
    requires 1 <= month <= 12
    ensures month < 12 ==> DaysBeforeMonth(year, month + 1) == DaysBeforeMonth(year, month) + DaysInMonth(year, month)
    ensures month == 12 ==> DaysBeforeMonth(year, month) + DaysInMonth(year, month) == DaysInYear(year)
  {
  }

  lemma {:induction false} DaysBeforeYearMonotone(y1: int, y2: int)
    requires 1 <= y1 <= y2
    ensures DaysBeforeYear(y1) + (y2 - y1) * 365 <= DaysBeforeYear(y2)
    decreases y2 - y1
  {
    if y1 < y2 {
      DaysBeforeYearMonotone(y1 + 1, y2);
      DaysBeforeYearStep(y1);
    }
  }

  lemma {:induction false} DaysBeforeMonthMonotone(year: int, m1: int, m2: int)
    requires 1 <= m1 < m2 <= 12
    ensures DaysBeforeMonth(year, m1) + DaysInMonth(year, m1) <= DaysBeforeMonth(year, m2)
    decreases m2 - m1
  {
    DaysBeforeMonthStep(year, m1);
    if m1 + 1 < m2 {
      DaysBeforeMonthMonotone(year, m1 + 1, m2);
    }
  }

  /** The day a calendar date is followed by. */
  function NextDay(d: Date): Date
    requires ValidDate(d)
  {
    if d.day < DaysInMonth(d.year, d.month) then Date(d.year, d.month, d.day + 1)
    else if d.month < 12 then Date(d.year, d.month + 1, 1)
    else Date(d.year + 1, 1, 1)
  }

  /** Day numbers count days: the next calendar day is exactly one day later. */
  lemma DayNumberNextDay(d: Date)
    requires ValidDate(d)
    ensures DayNumber(NextDay(d)) == DayNumber(d) + 1
  {
    DaysBeforeMonthStep(d.year, d.month);
    DaysBeforeYearStep(d.year);
  }

  /** Chronological order of dates: year, then month, then day. */
  predicate Before(d1: Date, d2: Date)
  {
    d1.year < d2.year
    || (d1.year == d2.year && d1.month < d2.month)
    || (d1.year == d2.year && d1.month == d2.month && d1.day < d2.day)
  }

  /** A later date has a larger day number. */
  lemma DayNumberIncreasing(d1: Date, d2: Date)
    requires ValidDate(d1) && ValidDate(d2) && Before(d1, d2)
    ensures DayNumber(d1) < DayNumber(d2)
  {
    DaysBeforeMonthStep(d1.year, 12);
    if d1.year < d2.year {
      if d1.month < 12 {
        DaysBeforeMonthMonotone(d1.year, d1.month, 12);
      }
      DaysBeforeYearStep(d1.year);
      DaysBeforeYearMonotone(d1.year + 1, d2.year);
    } else if d1.month < d2.month {
      DaysBeforeMonthMonotone(d1.year, d1.month, d2.month);
    }
  }

  /** The day number of the date a string names. */
  function DayNumberOf(s: string): int
    requires ParseDate(s).Some?
  {
    DayNumber(ParseDate(s).value)
  }

  /** A date string's numeric value is its year, month and day side by side. */
  lemma DateStringValue(s: string)
    requires ParseDate(s).Some?
    ensures var d := ParseDate(s).value; Value(s) == d.year * 10000 + d.month * 100 + d.day
  {
    ValueConcat(s[..4], s[4..6]);
    assert s[..6] == s[..4] + s[4..6];
    ValueConcat(s[..6], s[6..]);
    assert s == s[..6] + s[6..];
  }

  /**
    For strings that parse, Python's string order is chronological order:
    `s1 <= s2` exactly when `s1` names a day no later than `s2`.
   */
  lemma StringOrderIsChronological(s1: string, s2: string)
    requires ParseDate(s1).Some? && ParseDate(s2).Some?
    ensures LexLe(s1, s2) <==> DayNumberOf(s1) <= DayNumberOf(s2)
  {
    var d1, d2 := ParseDate(s1).value, ParseDate(s2).value;
    LexLeIsNumeric(s1, s2);
    DateStringValue(s1);
    DateStringValue(s2);
    if Before(d1, d2) {
      DayNumberIncreasing(d1, d2);
    } else if Before(d2, d1) {
      DayNumberIncreasing(d2, d1);
    }
  }
}
