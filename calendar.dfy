/** The proleptic Gregorian calendar of Python's `datetime.date` and
    `calendar.monthrange`: leap years, month lengths, the next day, day
    ordinals and the `YYYYMMDD` text form (the basic format of the complete
    calendar date representation, section 4.1.2.2 of ISO 8601:2004). */
module Calendar {
  import opened Wrappers
  import opened Text

  /** Python's `datetime.MINYEAR` and `datetime.MAXYEAR`. */
  const MinYear := 1
  const MaxYear := 9999

  /** Python's `calendar.isleap` (its `%` floors, as Dafny's does for a
      positive divisor). */
  predicate IsLeap(year: int)
  {
    year % 4 == 0 && (year % 100 != 0 || year % 400 == 0)
  }

  /** Python's `calendar.mdays`, January first. */
  const MonthLengths: seq<int> := [31, 28, 31, 30, 31, 30, 31, 31, 30, 31, 30, 31]

  /** Days of a non-leap year before the first of each month. */
  const DaysBeforeMonthTable: seq<int> := [0, 31, 59, 90, 120, 151, 181, 212, 243, 273, 304, 334]

  /** The second component of `calendar.monthrange(year, month)`. */
  function DaysInMonth(year: int, month: int): (n: int)
    requires 1 <= month <= 12
    ensures 28 <= n <= 31
  {
    MonthLengths[month - 1] + (if month == 2 && IsLeap(year) then 1 else 0)
  }

  lemma DaysInMonthCases(year: int, month: int)
    requires 1 <= month <= 12
    ensures DaysInMonth(year, month) == 29 <==> month == 2 && IsLeap(year)
    ensures DaysInMonth(year, month) == 28 <==> month == 2 && !IsLeap(year)
  {
  }

  datatype Date = Date(year: int, month: int, day: int)

  /** A calendar date with a positive year (no upper bound). */
  predicate WellFormed(d: Date)
  {
    d.year >= 1 && 1 <= d.month <= 12 && 1 <= d.day <= DaysInMonth(d.year, d.month)
  }

  /** A date `datetime.date(year, month, day)` accepts without ValueError. */
  predicate ValidDate(d: Date)
  {
    WellFormed(d) && MinYear <= d.year <= MaxYear
  }

  /** Python's `datetime.date.max`. */
  const MaxDate := Date(MaxYear, 12, 31)

  /** `d + timedelta(days=1)`, without the upper year bound. */
  function NextDay(d: Date): (e: Date)
    requires WellFormed(d)
    ensures WellFormed(e)
  {
    if d.day < DaysInMonth(d.year, d.month) then Date(d.year, d.month, d.day + 1)
    else if d.month < 12 then Date(d.year, d.month + 1, 1)
    else Date(d.year + 1, 1, 1)
  }

  function YearLength(year: int): int
  {
    if IsLeap(year) then 366 else 365
  }

  function DaysBeforeYear(year: int): nat
    requires year >= 1
  {
    if year == 1 then 0 else DaysBeforeYear(year - 1) + YearLength(year - 1)
  }

  function DaysBeforeMonth(year: int, month: int): nat
    requires 1 <= month <= 12
  {
    DaysBeforeMonthTable[month - 1] + (if month > 2 && IsLeap(year) then 1 else 0)
  }

  /** Python's `date.toordinal()`: 1 January of year 1 is day 1. */
  function Ordinal(d: Date): int
    requires WellFormed(d)
  {
    DaysBeforeYear(d.year) + DaysBeforeMonth(d.year, d.month) + d.day
  }

  /** Python's `a <= b` on dates. */
  predicate DateLe(a: Date, b: Date)
  {
    a.year < b.year || (a.year == b.year && (a.month < b.month || (a.month == b.month && a.day <= b.day)))
  }

  lemma DaysBeforeNextMonth(year: int, month: int)
    requires 1 <= month < 12
    ensures DaysBeforeMonth(year, month + 1) == DaysBeforeMonth(year, month) + DaysInMonth(year, month)
  {
  }

  lemma DaysBeforeDecember(year: int)
    ensures DaysBeforeMonth(year, 12) + DaysInMonth(year, 12) == YearLength(year)
  {
  }

  /** Consecutive days have consecutive ordinals. */
  lemma NextDayOrdinal(d: Date)
    requires WellFormed(d)
    ensures Ordinal(NextDay(d)) == Ordinal(d) + 1
  {
    if d.day == DaysInMonth(d.year, d.month) {
      if d.month < 12 {
        DaysBeforeNextMonth(d.year, d.month);
      } else {
        DaysBeforeDecember(d.year);
      }
    }
  }

  /** Every day of a year lies within that year's ordinal range. */
  lemma DayOfYearBounds(d: Date)
    requires WellFormed(d)
    ensures 1 <= DaysBeforeMonth(d.year, d.month) + d.day <= YearLength(d.year)
  {
    if d.month < 12 {
      DaysBeforeMonthMonotone(d.year, d.month, 12);
    }
    DaysBeforeDecember(d.year);
  }

  lemma {:induction false} DaysBeforeMonthMonotone(year: int, m1: int, m2: int)
    requires 1 <= m1 < m2 <= 12
    ensures DaysBeforeMonth(year, m1) + DaysInMonth(year, m1) <= DaysBeforeMonth(year, m2)
    decreases m2 - m1
  {
    DaysBeforeNextMonth(year, m1);
    if m1 + 1 < m2 {
      DaysBeforeMonthMonotone(year, m1 + 1, m2);
    }
  }

  lemma {:induction false} DaysBeforeYearMonotone(y1: int, y2: int)
    requires 1 <= y1 < y2
    ensures DaysBeforeYear(y1) + YearLength(y1) <= DaysBeforeYear(y2)
    decreases y2 - y1
  {
    if y1 + 1 < y2 {
      DaysBeforeYearMonotone(y1 + 1, y2);
    }
  }

  lemma OrdinalBefore(a: Date, b: Date)
    requires WellFormed(a) && WellFormed(b)
    requires a.year < b.year || (a.year == b.year && a.month < b.month)
    ensures Ordinal(a) < Ordinal(b)
  {
    DayOfYearBounds(a);
    DayOfYearBounds(b);
    if a.year < b.year {
      DaysBeforeYearMonotone(a.year, b.year);
    } else {
      DaysBeforeMonthMonotone(a.year, a.month, b.month);
    }
  }

  /** Python's date comparison agrees with the order of ordinals. */
  lemma OrdinalOrder(a: Date, b: Date)
    requires WellFormed(a) && WellFormed(b)
    ensures DateLe(a, b) <==> Ordinal(a) <= Ordinal(b)
  {
    if a.year < b.year || (a.year == b.year && a.month < b.month) {
      OrdinalBefore(a, b);
    } else if b.year < a.year || (a.year == b.year && b.month < a.month) {
      OrdinalBefore(b, a);
    }
  }

  /** Distinct dates have distinct ordinals. */
  lemma OrdinalInjective(a: Date, b: Date)
    requires WellFormed(a) && WellFormed(b)
    requires Ordinal(a) == Ordinal(b)
    ensures a == b
  {
    OrdinalOrder(a, b);
    OrdinalOrder(b, a);
  }

  /** The date `k` days after `start`. */
  function DayAfter(start: Date, k: nat): (d: Date)
    requires WellFormed(start)
    ensures WellFormed(d) && Ordinal(d) == Ordinal(start) + k
  {
    if k == 0 then start
    else
      var prev := DayAfter(start, k - 1);
      NextDayOrdinal(prev);
      NextDay(prev)
  }

  /** `n` consecutive days starting at `start`. */
  function DaysFrom(start: Date, n: nat): (r: seq<Date>)
    requires WellFormed(start)
    ensures |r| == n
  {
    seq(n, i requires 0 <= i < n => DayAfter(start, i))
  }

  /** Every entry of a day run is a date one day after its predecessor;
      ordinals run without gap from `start`. */
  lemma DaysFromStep(start: Date, n: nat, i: nat)
    requires WellFormed(start) && i + 1 < n
    ensures DaysFrom(start, n)[i + 1] == NextDay(DaysFrom(start, n)[i])
    ensures Ordinal(DaysFrom(start, n)[i + 1]) == Ordinal(DaysFrom(start, n)[i]) + 1
  {
    NextDayOrdinal(DaysFrom(start, n)[i]);
  }

  lemma DaysFromSnoc(start: Date, n: nat)
    requires WellFormed(start)
    ensures DaysFrom(start, n + 1) == DaysFrom(start, n) + [DayAfter(start, n)]
  {
  }

  /** A day run from `start` of ordinal length ends on `end`. */
  lemma DaysFromLast(start: Date, end: Date)
    requires WellFormed(start) && WellFormed(end) && Ordinal(start) <= Ordinal(end)
    ensures var n := Ordinal(end) - Ordinal(start) + 1;
            DaysFrom(start, n)[0] == start && DaysFrom(start, n)[n - 1] == end
  {
    var n := Ordinal(end) - Ordinal(start) + 1;
    OrdinalInjective(DayAfter(start, n - 1), end);
  }

  /** The `YYYYMMDD` spelling of a date (`strftime('%Y%m%d')`). */
  function Format(d: Date): string
    requires d.year >= 0 && d.month >= 0 && d.day >= 0
  {
    ZeroPad(d.year, 4) + ZeroPad(d.month, 2) + ZeroPad(d.day, 2)
  }

  /** Reads a `YYYYMMDD` string back; `None` unless it is 8 digits naming a
      valid date. */
  function ParseBasic(s: string): Option<Date>
  {
    if |s| == 8 && AllDigits(s) then
      var d := Date(ParseDigits(s[..4]), ParseDigits(s[4..6]), ParseDigits(s[6..]));
      if ValidDate(d) then Some(d) else None
    else None
  }

  /** The three fields of a `YYYYMMDD` string sit at fixed offsets. */
  lemma SplitDate(y: string, m: string, dd: string)
    requires |y| == 4 && |m| == 2 && |dd| == 2
    requires AllDigits(y) && AllDigits(m) && AllDigits(dd)
    ensures var s := y + m + dd;
      |s| == 8 && AllDigits(s) && s[..4] == y && s[4..6] == m && s[6..] == dd
  {
  }

  /** Formatting a valid date gives 8 characters that read back as it. */
  lemma ParseFormat(d: Date)
    requires ValidDate(d)
    ensures |Format(d)| == 8 && ParseBasic(Format(d)) == Some(d)
  {
    var y, m, dd := ZeroPad(d.year, 4), ZeroPad(d.month, 2), ZeroPad(d.day, 2);
    assert Pow10(4) == 10000 && Pow10(2) == 100;
    ZeroPadLength(d.year, 4);
    ZeroPadLength(d.month, 2);
    ZeroPadLength(d.day, 2);
    SplitDate(y, m, dd);
    ParseZeroPad(d.year, 4);
    ParseZeroPad(d.month, 2);
    ParseZeroPad(d.day, 2);
  }

  /** The spelling of a valid date is 8 digits, the last four its month and day. */
  lemma FormatDigits(d: Date)
    requires ValidDate(d)
    ensures |Format(d)| == 8 && AllDigits(Format(d))
    ensures Format(d)[4..] == ZeroPad(d.month, 2) + ZeroPad(d.day, 2)
  {
    var y, m, dd := ZeroPad(d.year, 4), ZeroPad(d.month, 2), ZeroPad(d.day, 2);
    assert Pow10(4) == 10000 && Pow10(2) == 100;
    ZeroPadLength(d.year, 4);
    ZeroPadLength(d.month, 2);
    ZeroPadLength(d.day, 2);
    SplitDate(y, m, dd);
    assert Format(d)[4..] == Format(d)[4..6] + Format(d)[6..];
  }

  lemma FormatInjective(a: Date, b: Date)
    requires ValidDate(a) && ValidDate(b) && Format(a) == Format(b)
    ensures a == b
  {
    ParseFormat(a);
    ParseFormat(b);
  }
}
