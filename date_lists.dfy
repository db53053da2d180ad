/** The date lists of utils.py: the meteorological year (1 December of the
    previous year to 30 November), one month/day across a range of years,
    and the days of a month. */
module DateLists {
  import opened Wrappers
  import opened Calendar

  /** The exceptions the date helpers raise: `ValueError` from
      `datetime.date`, `OverflowError` from date arithmetic past
      `date.max`, `IllegalMonthError` from `calendar.monthrange`. */
  datatype DateError = ValueError | OverflowError | IllegalMonthError

  predicate AllWellFormed(ds: seq<Date>)
  {
    forall i :: 0 <= i < |ds| ==> WellFormed(ds[i])
  }

  /** Each date in its `YYYYMMDD` spelling. */
  function FormatAll(ds: seq<Date>): (r: seq<string>)
    requires AllWellFormed(ds)
    ensures |r| == |ds|
  {
    seq(|ds|, i requires 0 <= i < |ds| => Format(ds[i]))
  }

  lemma FormatAllAppend(a: seq<Date>, b: seq<Date>)
    requires AllWellFormed(a) && AllWellFormed(b)
    ensures AllWellFormed(a + b)
    ensures FormatAll(a + b) == FormatAll(a) + FormatAll(b)
  {
  }

  /** Extending a day run by one day extends its text by that day. */
  lemma DaysFromFormatSnoc(start: Date, n: nat)
    requires WellFormed(start)
    ensures AllWellFormed(DaysFrom(start, n)) && AllWellFormed(DaysFrom(start, n + 1))
    ensures FormatAll(DaysFrom(start, n + 1)) == FormatAll(DaysFrom(start, n)) + [Format(DayAfter(start, n))]
  {
    DaysFromSnoc(start, n);
    FormatAllAppend(DaysFrom(start, n), [DayAfter(start, n)]);
  }

  // ---------------------------------------------------------------------
  // get_dates_in_year

  /** The meteorological year `year`: every day from 1 December of
      `year - 1` to 30 November of `year`. */
  function MeteorologicalYear(year: int): seq<Date>
    requires year >= 2
  {
    DaysFrom(Date(year - 1, 12, 1), YearLength(year))
  }

  /** The meteorological year spans February of `year`, so it has as many
      days as the calendar year `year`. */
  lemma MeteorologicalYearSpan(year: int)
    requires year >= 2
    ensures Ordinal(Date(year, 11, 30)) - Ordinal(Date(year - 1, 12, 1)) + 1 == YearLength(year)
  {
  }

  /** get_dates_in_year: walks from 1 December of `year - 1` to
      30 November of `year`, one day at a time. Raises ValueError when
      either end lies outside Python's year range. */
  method DatesInYear(year: int) returns (r: Result<seq<string>, DateError>)
    ensures r.Err? <==> !(MinYear < year <= MaxYear)
    ensures r.Err? ==> r.error == ValueError
    ensures r.Ok? ==> r.value == FormatAll(MeteorologicalYear(year))
  {
    if year - 1 < MinYear || year > MaxYear {
      return Err(ValueError);
    }
    var start := Date(year - 1, 12, 1);
    var end := Date(year, 11, 30);
    MeteorologicalYearSpan(year);
    var dates: seq<string> := [];
    var current := start;
    DaysFromFormatSnoc(start, 0);
    while DateLe(current, end)
      invariant current == DayAfter(start, |dates|)
      invariant Ordinal(current) <= Ordinal(end) + 1
      invariant AllWellFormed(DaysFrom(start, |dates|))
      invariant dates == FormatAll(DaysFrom(start, |dates|))
      decreases Ordinal(end) + 1 - Ordinal(current)
    {
      OrdinalOrder(current, end);
      DaysFromFormatSnoc(start, |dates|);
      assert DayAfter(start, |dates| + 1) == NextDay(current);
      dates := dates + [Format(current)];
      current := NextDay(current);
    }
    OrdinalOrder(current, end);
    assert |dates| == YearLength(year);
    return Ok(dates);
  }

  /** The meteorological year runs from 1 December of the previous year to
      30 November, one day at a time without gap or repetition, holds only
      valid dates, and has 366 days exactly when `year` is a leap year. */
  lemma MeteorologicalYearShape(year: int)
    requires MinYear < year <= MaxYear
    ensures var ds := MeteorologicalYear(year);
      && |ds| == (if IsLeap(year) then 366 else 365)
      && ds[0] == Date(year - 1, 12, 1)
      && ds[|ds| - 1] == Date(year, 11, 30)
      && (forall i :: 0 <= i < |ds| ==> ValidDate(ds[i]))
      && (forall i :: 0 <= i < |ds| - 1 ==> ds[i + 1] == NextDay(ds[i]))
      && (forall i, j :: 0 <= i < j < |ds| ==> Ordinal(ds[i]) < Ordinal(ds[j]))
  {
    var start, end := Date(year - 1, 12, 1), Date(year, 11, 30);
    var ds := MeteorologicalYear(year);
    MeteorologicalYearSpan(year);
    DaysFromLast(start, end);
    forall i | 0 <= i < |ds|
      ensures ValidDate(ds[i])
    {
      OrdinalOrder(ds[i], end);
      OrdinalOrder(start, ds[i]);
    }
    forall i | 0 <= i < |ds| - 1
      ensures ds[i + 1] == NextDay(ds[i])
    {
      DaysFromStep(start, |ds|, i);
    }
  }

  /** 29 February of `year` is in the meteorological year exactly when
      `year` is a leap year. */
  lemma LeapDayInMeteorologicalYear(year: int)
    requires MinYear < year <= MaxYear
    ensures Date(year, 2, 29) in MeteorologicalYear(year) <==> IsLeap(year)
  {
    var ds := MeteorologicalYear(year);
    var start, end := Date(year - 1, 12, 1), Date(year, 11, 30);
    var leapDay := Date(year, 2, 29);
    MeteorologicalYearShape(year);
    if IsLeap(year) {
      OrdinalOrder(start, leapDay);
      OrdinalOrder(leapDay, end);
      var k := Ordinal(leapDay) - Ordinal(start);
      OrdinalInjective(ds[k], leapDay);
    }
  }

  /** Every string of the meteorological year is an 8-character `YYYYMMDD`
      date that reads back as its day, and no string repeats. */
  lemma MeteorologicalYearText(year: int)
    requires MinYear < year <= MaxYear
    ensures var ds := MeteorologicalYear(year);
      && AllWellFormed(ds)
      && var ss := FormatAll(ds);
      && (forall i :: 0 <= i < |ss| ==> |ss[i]| == 8 && ParseBasic(ss[i]) == Some(ds[i]))
      && (forall i, j :: 0 <= i < j < |ss| ==> ss[i] != ss[j])
  {
    var ds := MeteorologicalYear(year);
    MeteorologicalYearShape(year);
    var ss := FormatAll(ds);
    forall i | 0 <= i < |ss|
      ensures |ss[i]| == 8 && ParseBasic(ss[i]) == Some(ds[i])
    {
      ParseFormat(ds[i]);
    }
  }

  // ---------------------------------------------------------------------
  // get_date_from_years

  /** The dates `month/day` of each year `y0..y1` that exist, in year
      order. */
  function SameDayDates(y0: int, y1: int, month: int, day: int): seq<Date>
    decreases y1 - y0
  {
    if y1 < y0 then []
    else
      SameDayDates(y0, y1 - 1, month, day)
      + (if ValidDate(Date(y1, month, day)) then [Date(y1, month, day)] else [])
  }

  /** get_date_from_years: for each year of `range(y0, y1 + 1)`, the
      `YYYYMMDD` string of `month/day` in that year; a combination
      `datetime.date` rejects is skipped. */
  method DatesAcrossYears(y0: int, y1: int, month: int, day: int) returns (dates: seq<string>)
    ensures SameDayValid(y0, y1, month, day)
    ensures dates == FormatAll(SameDayDates(y0, y1, month, day))
  {
    SameDayAllValid(y0, y1, month, day);
    dates := [];
    var year := y0;
    while year <= y1
      invariant y0 <= year && (if y0 <= y1 then year <= y1 + 1 else year == y0)
      invariant SameDayValid(y0, year - 1, month, day)
      invariant dates == FormatAll(SameDayDates(y0, year - 1, month, day))
      decreases y1 - year
    {
      SameDayAllValid(y0, year, month, day);
      var d := Date(year, month, day);
      if ValidDate(d) {
        FormatAllAppend(SameDayDates(y0, year - 1, month, day), [d]);
        dates := dates + [Format(d)];
      }
      year := year + 1;
    }
  }

  predicate SameDayValid(y0: int, y1: int, month: int, day: int)
  {
    AllWellFormed(SameDayDates(y0, y1, month, day))
  }

  lemma {:induction false} SameDayAllValid(y0: int, y1: int, month: int, day: int)
    ensures SameDayValid(y0, y1, month, day)
    decreases y1 - y0
  {
    if y0 <= y1 {
      SameDayAllValid(y0, y1 - 1, month, day);
    }
  }

  /** The same-day list holds at most one date per year of `y0..y1`, in
      strictly ascending year order, each a valid `month/day`; it is empty
      when `y1 < y0`, and a year's date is in it exactly when that date
      exists. */
  lemma {:induction false} SameDayDatesFacts(y0: int, y1: int, month: int, day: int)
    ensures var r := SameDayDates(y0, y1, month, day);
      && |r| <= (if y1 < y0 then 0 else y1 - y0 + 1)
      && (forall i :: 0 <= i < |r| ==>
            ValidDate(r[i]) && r[i].month == month && r[i].day == day && y0 <= r[i].year <= y1)
      && (forall i, j :: 0 <= i < j < |r| ==> r[i].year < r[j].year)
      && (forall y :: y0 <= y <= y1 ==> (Date(y, month, day) in r <==> ValidDate(Date(y, month, day))))
      && SameDayValid(y0, y1, month, day)
  {
    SameDayBounds(y0, y1, month, day);
    SameDayAscending(y0, y1, month, day);
    SameDayMembership(y0, y1, month, day);
    SameDayAllValid(y0, y1, month, day);
  }

  lemma {:induction false} SameDayBounds(y0: int, y1: int, month: int, day: int)
    ensures var r := SameDayDates(y0, y1, month, day);
      && |r| <= (if y1 < y0 then 0 else y1 - y0 + 1)
      && (forall i :: 0 <= i < |r| ==>
            ValidDate(r[i]) && r[i].month == month && r[i].day == day && y0 <= r[i].year <= y1)
    decreases y1 - y0
  {
    if y0 <= y1 {
      SameDayBounds(y0, y1 - 1, month, day);
      var prev := SameDayDates(y0, y1 - 1, month, day);
      var last: seq<Date> := if ValidDate(Date(y1, month, day)) then [Date(y1, month, day)] else [];
      var r := prev + last;
      assert r == SameDayDates(y0, y1, month, day);
      forall i | 0 <= i < |r|
        ensures ValidDate(r[i]) && r[i].month == month && r[i].day == day && y0 <= r[i].year <= y1
      {
        if i >= |prev| {
          assert r[i] == last[i - |prev|];
        }
      }
    }
  }

  lemma {:induction false} SameDayAscending(y0: int, y1: int, month: int, day: int)
    ensures var r := SameDayDates(y0, y1, month, day);
      forall i, j :: 0 <= i < j < |r| ==> r[i].year < r[j].year
    decreases y1 - y0
  {
    if y0 <= y1 {
      SameDayAscending(y0, y1 - 1, month, day);
      SameDayBounds(y0, y1 - 1, month, day);
      var prev := SameDayDates(y0, y1 - 1, month, day);
      var last: seq<Date> := if ValidDate(Date(y1, month, day)) then [Date(y1, month, day)] else [];
      var r := prev + last;
      assert r == SameDayDates(y0, y1, month, day);
      forall i, j | 0 <= i < j < |r|
        ensures r[i].year < r[j].year
      {
        if j >= |prev| {
          assert r[j] == Date(y1, month, day);
          assert r[i] == prev[i];
        } else {
          assert r[i] == prev[i] && r[j] == prev[j];
        }
      }
    }
  }

  lemma {:induction false} SameDayMembership(y0: int, y1: int, month: int, day: int)
    ensures var r := SameDayDates(y0, y1, month, day);
      forall y :: y0 <= y <= y1 ==> (Date(y, month, day) in r <==> ValidDate(Date(y, month, day)))
    decreases y1 - y0
  {
    if y0 <= y1 {
      SameDayMembership(y0, y1 - 1, month, day);
      SameDayBounds(y0, y1 - 1, month, day);
      var prev := SameDayDates(y0, y1 - 1, month, day);
      var last: seq<Date> := if ValidDate(Date(y1, month, day)) then [Date(y1, month, day)] else [];
      var r := prev + last;
      assert r == SameDayDates(y0, y1, month, day);
      assert Date(y1, month, day) !in prev;
      forall y | y0 <= y <= y1
        ensures Date(y, month, day) in r <==> ValidDate(Date(y, month, day))
      {
        assert Date(y, month, day) in r <==> Date(y, month, day) in prev || Date(y, month, day) in last;
      }
    }
  }

  /** A month/day that exists in every year (anything but 29 February)
      yields exactly one date per year of a range within Python's years. */
  lemma {:induction false} SameDayDatesComplete(y0: int, y1: int, month: int, day: int)
    requires MinYear <= y0 && y1 <= MaxYear
    requires 1 <= month <= 12 && 1 <= day <= MonthLengths[month - 1]
    ensures |SameDayDates(y0, y1, month, day)| == if y1 < y0 then 0 else y1 - y0 + 1
    decreases y1 - y0
  {
    if y0 <= y1 {
      SameDayDatesComplete(y0, y1 - 1, month, day);
      ExistsEveryYear(y1, month, day);
      assert SameDayDates(y0, y1, month, day)
          == SameDayDates(y0, y1 - 1, month, day) + [Date(y1, month, day)];
    }
  }

  lemma ExistsEveryYear(y: int, month: int, day: int)
    requires MinYear <= y <= MaxYear
    requires 1 <= month <= 12 && 1 <= day <= MonthLengths[month - 1]
    ensures ValidDate(Date(y, month, day))
  {
  }

  /** When the first year's date exists, the list starts with it. */
  lemma {:induction false} SameDayFirst(y0: int, y1: int, month: int, day: int)
    requires y0 <= y1 && ValidDate(Date(y0, month, day))
    ensures var r := SameDayDates(y0, y1, month, day);
            |r| > 0 && r[0] == Date(y0, month, day)
    decreases y1 - y0
  {
    if y0 == y1 {
      assert SameDayDates(y0, y0 - 1, month, day) == [];
    } else {
      SameDayFirst(y0, y1 - 1, month, day);
    }
  }

  /** When the last year's date exists, the list ends with it. */
  lemma SameDayLast(y0: int, y1: int, month: int, day: int)
    requires y0 <= y1 && ValidDate(Date(y1, month, day))
    ensures var r := SameDayDates(y0, y1, month, day);
            |r| > 0 && r[|r| - 1] == Date(y1, month, day)
  {
  }

  /** 29 February across years yields exactly the leap years. */
  lemma LeapDayAcrossYears(y0: int, y1: int, y: int)
    requires MinYear <= y0 <= y <= y1 <= MaxYear
    ensures Date(y, 2, 29) in SameDayDates(y0, y1, 2, 29) <==> IsLeap(y)
  {
    SameDayDatesFacts(y0, y1, 2, 29);
  }

  // ---------------------------------------------------------------------
  // get_days_in_month

  /** get_days_in_month: the day numbers of `month` in `year`; raises
      IllegalMonthError for a month outside 1..12. */
  function DaysOfMonth(year: int, month: int): (r: Result<seq<int>, DateError>)
    ensures r.Err? <==> !(1 <= month <= 12)
    ensures r.Err? ==> r.error == IllegalMonthError
    ensures r.Ok? ==> |r.value| == DaysInMonth(year, month)
    ensures r.Ok? ==> forall d :: d in r.value <==> ValidDayOfMonth(year, month, d)
    ensures r.Ok? ==> forall i, j :: 0 <= i < j < |r.value| ==> r.value[i] < r.value[j]
  {
    if 1 <= month <= 12 then
      var n := DaysInMonth(year, month);
      OneToMembers(n);
      Ok(OneTo(n))
    else Err(IllegalMonthError)
  }

  /** `[1, 2, ..., n]`, Python's `range(1, n + 1)`. */
  function OneTo(n: nat): (r: seq<int>)
    ensures |r| == n
  {
    seq(n, i requires 0 <= i < n => i + 1)
  }

  lemma OneToMembers(n: nat)
    ensures forall d :: d in OneTo(n) <==> 1 <= d <= n
    ensures forall i, j :: 0 <= i < j < n ==> OneTo(n)[i] < OneTo(n)[j]
  {
    forall d | 1 <= d <= n
      ensures d in OneTo(n)
    {
      assert OneTo(n)[d - 1] == d;
    }
  }

  /** `day` is a day of `month` in `year` under the Gregorian leap rule. */
  predicate ValidDayOfMonth(year: int, month: int, day: int)
    requires 1 <= month <= 12
  {
    1 <= day <= DaysInMonth(year, month)
  }
}
