/**
 * Dates of the proleptic Gregorian calendar as Python's `datetime.date` has
 * them: years 1 to 9999, the day ordinal `toordinal()` (1 January of year 1
 * is day 1), adding a number of days (`date + timedelta(days=n)`, which
 * raises OverflowError past 31 December 9999), and the `"%d-%m-%Y"` format.
 */
module Calendar {
  import opened Wrappers
  import opened Numerals

  datatype Date = Date(year: int, month: int, day: int)

  const MinYear := 1
  const MaxYear := 9999

  /** The ordinal of 31 December 9999, the last date there is. */
  const MaxOrdinal := 3652059

  predicate IsLeapYear(y: int) {
    y % 4 == 0 && (y % 100 != 0 || y % 400 == 0)
  }

  function DaysInYear(y: int): int {
    if IsLeapYear(y) then 366 else 365
  }

  function DaysInMonth(y: int, m: int): (n: int)
    requires 1 <= m <= 12
    ensures 28 <= n <= 31
  {
    if m == 2 then (if IsLeapYear(y) then 29 else 28)
    else if m == 4 || m == 6 || m == 9 || m == 11 then 30
    else 31
  }

  predicate ValidDate(d: Date) {
    && MinYear <= d.year <= MaxYear
    && 1 <= d.month <= 12
    && 1 <= d.day <= DaysInMonth(d.year, d.month)
  }

  /** Days in the years before year `y`. */
  function DaysBeforeYear(y: int): int
    requires y >= 1
  {
    var z := y - 1;
    z * 365 + z / 4 - z / 100 + z / 400
  }

  /** Days in the months of year `y` before month `m`. */
  function DaysBeforeMonth(y: int, m: int): int
    requires 1 <= m <= 12
  {
    [0, 31, 59, 90, 120, 151, 181, 212, 243, 273, 304, 334][m - 1]
      + (if m > 2 && IsLeapYear(y) then 1 else 0)
  }

  /** Python's `date.toordinal()`: a date's ordinal lies in its year's block of days. */
  function ToOrdinal(d: Date): (n: int)
    requires ValidDate(d)
    ensures DaysBeforeYear(d.year) < n <= DaysBeforeYear(d.year) + DaysInYear(d.year)
  {
    DayOfYearBounds(d);
    DaysBeforeYear(d.year) + DaysBeforeMonth(d.year, d.month) + d.day
  }

  lemma YearStep(y: int)
    requires y >= 1
    ensures DaysBeforeYear(y + 1) == DaysBeforeYear(y) + DaysInYear(y)
  {
    var z := y - 1;
    assert (z + 1) / 4 - z / 4 == (if y % 4 == 0 then 1 else 0);
    assert (z + 1) / 100 - z / 100 == (if y % 100 == 0 then 1 else 0);
    assert (z + 1) / 400 - z / 400 == (if y % 400 == 0 then 1 else 0);
  }

  lemma MonthStep(y: int, m: int)
    requires 1 <= m < 12
    ensures DaysBeforeMonth(y, m + 1) == DaysBeforeMonth(y, m) + DaysInMonth(y, m)
  {
  }

  lemma LastMonth(y: int)
    ensures DaysBeforeMonth(y, 12) + DaysInMonth(y, 12) == DaysInYear(y)
  {
  }

  /** A later month of the same year starts no earlier than this month ends. */
  lemma {:induction false} MonthsOrdered(y: int, m1: int, m2: int)
    requires 1 <= m1 < m2 <= 12
    ensures DaysBeforeMonth(y, m1) + DaysInMonth(y, m1) <= DaysBeforeMonth(y, m2)
    decreases m2 - m1
  {
    MonthStep(y, m1);
    if m1 + 1 < m2 {
      MonthsOrdered(y, m1 + 1, m2);
    }
  }

  /** A later year starts no earlier than this year ends. */
  lemma {:induction false} YearsOrdered(y1: int, y2: int)
    requires 1 <= y1 < y2
    ensures DaysBeforeYear(y1) + DaysInYear(y1) <= DaysBeforeYear(y2)
    decreases y2 - y1
  {
    YearStep(y1);
    if y1 + 1 < y2 {
      YearsOrdered(y1 + 1, y2);
      YearStep(y1 + 1);
    }
  }

  /** The day of the year lies within the year. */
  lemma DayOfYearBounds(d: Date)
    requires ValidDate(d)
    ensures 1 <= DaysBeforeMonth(d.year, d.month) + d.day <= DaysInYear(d.year)
  {
    LastMonth(d.year);
    if d.month < 12 {
      MonthsOrdered(d.year, d.month, 12);
    }
  }

  /** Dates in calendar order. */
  predicate Before(a: Date, b: Date) {
    || a.year < b.year
    || (a.year == b.year && a.month < b.month)
    || (a.year == b.year && a.month == b.month && a.day < b.day)
  }

  /** The ordinal is strictly increasing in calendar order. */
  lemma OrdinalMonotone(a: Date, b: Date)
    requires ValidDate(a) && ValidDate(b) && Before(a, b)
    ensures ToOrdinal(a) < ToOrdinal(b)
  {
    DayOfYearBounds(a);
    DayOfYearBounds(b);
    if a.year < b.year {
      YearsOrdered(a.year, b.year);
    } else if a.month < b.month {
      MonthsOrdered(a.year, a.month, b.month);
    }
  }

  /** Distinct dates have distinct ordinals: the ordinal names a date. */
  lemma OrdinalInjective(a: Date, b: Date)
    requires ValidDate(a) && ValidDate(b)
    ensures ToOrdinal(a) == ToOrdinal(b) ==> a == b
  {
    if Before(a, b) {
      OrdinalMonotone(a, b);
    } else if Before(b, a) {
      OrdinalMonotone(b, a);
    }
  }

  /** Every date has an ordinal between 1 and `MaxOrdinal`; only 31 December 9999 has `MaxOrdinal`. */
  lemma OrdinalRange(d: Date)
    requires ValidDate(d)
    ensures 1 <= ToOrdinal(d) <= MaxOrdinal
    ensures ToOrdinal(d) == MaxOrdinal <==> d == Date(MaxYear, 12, 31)
  {
    DayOfYearBounds(d);
    assert DaysBeforeYear(d.year) >= 0;
    if d != Date(MaxYear, 12, 31) {
      OrdinalMonotone(d, Date(MaxYear, 12, 31));
    }
  }

  /** The following day, or None after 31 December 9999. */
  function NextDay(d: Date): (r: Option<Date>)
    requires ValidDate(d)
    ensures r.Some? ==> ValidDate(r.value) && ToOrdinal(r.value) == ToOrdinal(d) + 1
    ensures r.None? <==> ToOrdinal(d) == MaxOrdinal
  {
    OrdinalRange(d);
    if d.day < DaysInMonth(d.year, d.month) then
      Some(Date(d.year, d.month, d.day + 1))
    else if d.month < 12 then
      MonthStep(d.year, d.month);
      Some(Date(d.year, d.month + 1, 1))
    else if d.year < MaxYear then
      YearStep(d.year);
      LastMonth(d.year);
      Some(Date(d.year + 1, 1, 1))
    else
      None
  }

  /** Python's `d + timedelta(days=n)`; None stands for its OverflowError. */
  function AddDays(d: Date, n: nat): (r: Option<Date>)
    requires ValidDate(d)
    ensures r.Some? ==> ValidDate(r.value)
    decreases n
  {
    if n == 0 then Some(d)
    else
      match NextDay(d)
      case None => None
      case Some(e) => AddDays(e, n - 1)
  }

  /** Adding `n` days moves the ordinal by exactly `n`, and fails exactly when that passes the last date. */
  lemma {:induction false} AddDaysOrdinal(d: Date, n: nat)
    requires ValidDate(d)
    ensures AddDays(d, n).Some? ==> ToOrdinal(AddDays(d, n).value) == ToOrdinal(d) + n
    ensures AddDays(d, n).None? <==> ToOrdinal(d) + n > MaxOrdinal
    decreases n
  {
    OrdinalRange(d);
    if n > 0 {
      match NextDay(d)
      case None =>
      case Some(e) =>
        AddDaysOrdinal(e, n - 1);
    }
  }

  /** The result of adding days is the one date whose ordinal is `n` more. */
  lemma AddDaysUnique(d: Date, n: nat, e: Date)
    requires ValidDate(d) && ValidDate(e)
    requires ToOrdinal(e) == ToOrdinal(d) + n
    ensures AddDays(d, n) == Some(e)
  {
    OrdinalRange(e);
    AddDaysOrdinal(d, n);
    OrdinalInjective(AddDays(d, n).value, e);
  }

  /** `date.strftime("%d-%m-%Y")`, with the year printed as four digits. */
  function FormatDate(d: Date): (s: string)
    requires ValidDate(d)
    ensures |s| == 10 && s[2] == '-' && s[5] == '-'
    ensures AllDigits(s[0..2]) && AllDigits(s[3..5]) && AllDigits(s[6..10])
  {
    PadDigits(d.day, 2) + "-" + PadDigits(d.month, 2) + "-" + PadDigits(d.year, 4)
  }

  /** Reads a `DD-MM-YYYY` string back into a date. */
  function ParseDate(s: string): Option<Date>
  {
    if |s| == 10 && s[2] == '-' && s[5] == '-'
       && AllDigits(s[0..2]) && AllDigits(s[3..5]) && AllDigits(s[6..10])
    then
      var d := Date(DecimalValue(s[6..10]), DecimalValue(s[3..5]), DecimalValue(s[0..2]));
      if ValidDate(d) then Some(d) else None
    else None
  }

  /** The formatted date reads back as the same date. */
  lemma ParseFormatDate(d: Date)
    requires ValidDate(d)
    ensures ParseDate(FormatDate(d)) == Some(d)
  {
    var dd := PadDigits(d.day, 2);
    var mm := PadDigits(d.month, 2);
    var yyyy := PadDigits(d.year, 4);
    var s := FormatDate(d);
    assert s[0..2] == dd && s[3..5] == mm && s[6..10] == yyyy;
    DecimalValueOfPadDigits(d.day, 2);
    DecimalValueOfPadDigits(d.month, 2);
    DecimalValueOfPadDigits(d.year, 4);
  }
}
