/** The calendar, query and percentile helpers of
    operational/etl_station_data.py. */
module StationEtl {
  import opened Wrappers
  import opened Text
  import opened Calendar
  import opened DateLists
  import opened Reduce
  import opened StatKeys

  // ---------------------------------------------------------------------
  // last_day_of_month

  /** last_day_of_month: the last day of `month` in `year`; raises
      IllegalMonthError for a month outside 1..12. */
  function LastDayOfMonth(year: int, month: int): (r: Result<int, DateError>)
    ensures r.Err? <==> !(1 <= month <= 12)
    ensures r.Ok? ==> ValidDayOfMonth(year, month, r.value) && !ValidDayOfMonth(year, month, r.value + 1)
    ensures r.Ok? ==> (r.value == 29 <==> month == 2 && IsLeap(year))
  {
    if 1 <= month <= 12 then Ok(DaysInMonth(year, month)) else Err(IllegalMonthError)
  }

  /** The last day of a month is the last entry of the month's day list. */
  lemma LastDayIsLastOfList(year: int, month: int)
    requires 1 <= month <= 12
    ensures var days := DaysOfMonth(year, month).value;
            LastDayOfMonth(year, month).Ok? && days[|days| - 1] == LastDayOfMonth(year, month).value
  {
    OneToMembers(DaysInMonth(year, month));
  }

  // ---------------------------------------------------------------------
  // set_query

  const QuerySelect := "SELECT rep_date, ws, wg, wdir"
  const QueryFrom := " FROM can_hly2020s"
  const QueryWhere := " WHERE wmo = "
  const QueryHead := QuerySelect + QueryFrom + QueryWhere
  const QueryBetween := " AND rep_date BETWEEN "
  const QueryAnd := " AND "
  const QueryTail := " ORDER BY rep_date;"
  const DayStart := " 00:00:00"
  const DayEnd := " 23:00:00"

  predicate NoQuote(s: string)
  {
    '\'' !in s
  }

  /** The pieces joined with a single quote between neighbours. */
  function JoinQuotes(pieces: seq<string>): string
    requires |pieces| >= 1
  {
    if |pieces| == 1 then pieces[0] else pieces[0] + "'" + JoinQuotes(pieces[1..])
  }

  /** set_query: the hourly-observation query of one station between
      `start` 00:00:00 and `end` 23:00:00, ordered by report time; the
      station id and both timestamps are single-quoted literals. */
  function SetQuery(start: string, end: string, stationId: string): string
  {
    JoinQuotes([QueryHead, stationId, QueryBetween, start + DayStart, QueryAnd, end + DayEnd, QueryTail])
  }

  /** The pieces of `s` between single quotes (Python's `s.split("'")`). */
  function SplitQuotes(s: string): (r: seq<string>)
    ensures |r| >= 1
  {
    if s == [] then [""]
    else
      var rest := SplitQuotes(s[1..]);
      if s[0] == '\'' then [""] + rest else [[s[0]] + rest[0]] + rest[1..]
  }

  lemma {:induction false} SplitNoQuote(a: string, b: string)
    requires NoQuote(a)
    ensures SplitQuotes(a + b)[0] == a + SplitQuotes(b)[0]
    ensures SplitQuotes(a + b)[1..] == SplitQuotes(b)[1..]
  {
    if a != [] {
      assert (a + b)[0] == a[0];
      assert (a + b)[1..] == a[1..] + b;
      assert a[0] in a;
      assert NoQuote(a[1..]) by {
        forall c | c in a[1..] ensures c in a { }
      }
      SplitNoQuote(a[1..], b);
      assert a == [a[0]] + a[1..];
    } else {
      assert a + b == b;
    }
  }

  /** A quote-free piece followed by a quote is split off as one piece. */
  lemma SplitAtQuote(a: string, b: string)
    requires NoQuote(a)
    ensures SplitQuotes(a + "'" + b) == [a] + SplitQuotes(b)
  {
    var qb := "'" + b;
    assert a + "'" + b == a + qb;
    assert qb[0] == '\'' && qb[1..] == b;
    assert SplitQuotes(qb) == [""] + SplitQuotes(b);
    SplitNoQuote(a, qb);
    assert a + "" == a;
  }

  /** Splitting undoes joining when no piece holds a quote. */
  lemma {:induction false} SplitJoin(pieces: seq<string>)
    requires |pieces| >= 1
    requires forall i :: 0 <= i < |pieces| ==> NoQuote(pieces[i])
    ensures SplitQuotes(JoinQuotes(pieces)) == pieces
  {
    if |pieces| == 1 {
      SplitNoQuote(pieces[0], "");
      assert pieces[0] + "" == pieces[0];
    } else {
      SplitJoin(pieces[1..]);
      SplitAtQuote(pieces[0], JoinQuotes(pieces[1..]));
      assert pieces == [pieces[0]] + pieces[1..];
    }
  }

  lemma QueryPiecesNoQuote()
    ensures NoQuote(QueryHead) && NoQuote(QueryBetween) && NoQuote(QueryAnd)
    ensures NoQuote(QueryTail) && NoQuote(DayStart) && NoQuote(DayEnd)
  {
    QueryPartsNoQuote();
    AppendNoQuote(QuerySelect, QueryFrom);
    AppendNoQuote(QuerySelect + QueryFrom, QueryWhere);
    QueryGluesNoQuote();
  }

  lemma QueryPartsNoQuote()
    ensures NoQuote(QuerySelect) && NoQuote(QueryFrom) && NoQuote(QueryWhere)
  {
  }

  lemma QueryGluesNoQuote()
    ensures NoQuote(QueryBetween) && NoQuote(QueryAnd) && NoQuote(QueryTail)
    ensures NoQuote(DayStart) && NoQuote(DayEnd)
  {
  }

  lemma AppendNoQuote(a: string, b: string)
    requires NoQuote(a) && NoQuote(b)
    ensures NoQuote(a + b)
  {
    forall c | c in a + b ensures c in a || c in b { }
  }

  /** When no argument contains a quote, the quoted literals of the query
      are exactly the station id, the start at 00:00:00 and the end at
      23:00:00, in that order. */
  lemma SetQueryLiterals(start: string, end: string, stationId: string)
    requires NoQuote(start) && NoQuote(end) && NoQuote(stationId)
    ensures SplitQuotes(SetQuery(start, end, stationId))
      == [QueryHead, stationId, QueryBetween, start + DayStart, QueryAnd, end + DayEnd, QueryTail]
  {
    QueryPiecesNoQuote();
    AppendNoQuote(start, DayStart);
    AppendNoQuote(end, DayEnd);
    SplitJoin([QueryHead, stationId, QueryBetween, start + DayStart, QueryAnd, end + DayEnd, QueryTail]);
  }

  /** So a query determines the station and the dates it was built from. */
  lemma SetQueryInjective(s1: string, e1: string, id1: string, s2: string, e2: string, id2: string)
    requires NoQuote(s1) && NoQuote(e1) && NoQuote(id1)
    requires NoQuote(s2) && NoQuote(e2) && NoQuote(id2)
    requires SetQuery(s1, e1, id1) == SetQuery(s2, e2, id2)
    ensures s1 == s2 && e1 == e2 && id1 == id2
  {
    SetQueryLiterals(s1, e1, id1);
    SetQueryLiterals(s2, e2, id2);
    assert s1 + DayStart == s2 + DayStart;
    assert e1 + DayEnd == e2 + DayEnd;
    assert s1 == (s1 + DayStart)[..|s1|];
    assert s2 == (s2 + DayStart)[..|s2|];
    assert e1 == (e1 + DayEnd)[..|e1|];
    assert e2 == (e2 + DayEnd)[..|e2|];
  }

  // ---------------------------------------------------------------------
  // mm_dd_pairs

  /** A (month, day) pair: integers with `as_int=True`, two-character
      zero-padded strings otherwise. */
  datatype MonthDay = IntPair(month: int, day: int) | TextPair(mm: string, dd: string)

  function PairOf(d: Date, asInt: bool): MonthDay
    requires WellFormed(d)
  {
    if asInt then IntPair(d.month, d.day) else TextPair(ZeroPad(d.month, 2), ZeroPad(d.day, 2))
  }

  function PairsOf(ds: seq<Date>, asInt: bool): (r: seq<MonthDay>)
    requires AllWellFormed(ds)
    ensures |r| == |ds|
  {
    seq(|ds|, i requires 0 <= i < |ds| => PairOf(ds[i], asInt))
  }

  lemma PairsOfAppend(a: seq<Date>, b: seq<Date>, asInt: bool)
    requires AllWellFormed(a) && AllWellFormed(b)
    ensures AllWellFormed(a + b)
    ensures PairsOf(a + b, asInt) == PairsOf(a, asInt) + PairsOf(b, asInt)
  {
  }

  /** Extending a day run by one day extends its pairs by that day's. */
  lemma DaysFromPairsSnoc(start: Date, n: nat, asInt: bool)
    requires WellFormed(start)
    ensures AllWellFormed(DaysFrom(start, n)) && AllWellFormed(DaysFrom(start, n + 1))
    ensures PairsOf(DaysFrom(start, n + 1), asInt)
         == PairsOf(DaysFrom(start, n), asInt) + [PairOf(DayAfter(start, n), asInt)]
  {
    DaysFromSnoc(start, n);
    PairsOfAppend(DaysFrom(start, n), [DayAfter(start, n)], asInt);
  }

  /** `result` holds the pairs of the first `|result|` days from `start`. */
  predicate PairsSoFar(start: Date, result: seq<MonthDay>, asInt: bool)
    requires WellFormed(start)
  {
    AllWellFormed(DaysFrom(start, |result|)) && result == PairsOf(DaysFrom(start, |result|), asInt)
  }

  /** One more day of the loop in `MmDdPairs`: the next pair extends the
      run's pairs, and the day after it is the next day of the run. */
  lemma PairsAdvance(start: Date, result: seq<MonthDay>, asInt: bool)
    requires WellFormed(start) && PairsSoFar(start, result, asInt)
    ensures PairsSoFar(start, result + [PairOf(DayAfter(start, |result|), asInt)], asInt)
    ensures NextDay(DayAfter(start, |result|)) == DayAfter(start, |result| + 1)
  {
    DaysFromPairsSnoc(start, |result|, asInt);
  }

  lemma NextDayValid(d: Date)
    requires ValidDate(d) && d != MaxDate
    ensures ValidDate(NextDay(d))
  {
  }

  lemma NothingAfterMax(d: Date)
    requires ValidDate(d) && DateLe(MaxDate, d)
    ensures d == MaxDate
  {
  }

  /** A day of the run from `start` that is not after `end` is one of the
      run's first `Ordinal(end) - Ordinal(start) + 1` days. */
  lemma WithinRun(start: Date, end: Date, n: nat)
    requires WellFormed(start) && WellFormed(end) && DateLe(DayAfter(start, n), end)
    ensures n < Ordinal(end) - Ordinal(start) + 1
  {
    OrdinalOrder(DayAfter(start, n), end);
  }

  /** The first day of the run that is after `end` is the day after `end`,
      so a valid one means `end` is not the last representable date. */
  lemma PastRun(start: Date, end: Date, n: nat)
    requires WellFormed(start) && ValidDate(end) && ValidDate(DayAfter(start, n))
    requires DateLe(start, end)
    requires n <= Ordinal(end) - Ordinal(start) + 1 && !DateLe(DayAfter(start, n), end)
    ensures n > 0 && DayAfter(start, n - 1) == end && end != MaxDate
  {
    var cur := DayAfter(start, n);
    OrdinalOrder(start, end);
    OrdinalOrder(cur, end);
    OrdinalOrder(cur, MaxDate);
    OrdinalInjective(DayAfter(start, n - 1), end);
  }

  /** mm_dd_pairs: one (month, day) pair per day from `start` to `end`
      inclusive, in chronological order. Raises ValueError when `end` is
      before `start`; stepping past `date.max` after the last pair raises
      OverflowError, so an `end` of 31 December 9999 always fails. */
  method MmDdPairs(start: Date, end: Date, asInt: bool) returns (r: Result<seq<MonthDay>, DateError>)
    requires ValidDate(start) && ValidDate(end)
    ensures r.Err? <==> !DateLe(start, end) || end == MaxDate
    ensures r.Err? ==> r.error == if !DateLe(start, end) then ValueError else OverflowError
    ensures r.Ok? ==> |r.value| > 0 && DayAfter(start, |r.value| - 1) == end
    ensures r.Ok? ==> AllWellFormed(DaysFrom(start, |r.value|))
                      && r.value == PairsOf(DaysFrom(start, |r.value|), asInt)
  {
    if !DateLe(start, end) {
      return Err(ValueError);
    }
    OrdinalOrder(start, end);
    ghost var count: nat := Ordinal(end) - Ordinal(start) + 1;
    var result: seq<MonthDay> := [];
    var cur := start;
    DaysFromPairsSnoc(start, 0, asInt);
    while DateLe(cur, end)
      invariant cur == DayAfter(start, |result|) && ValidDate(cur)
      invariant |result| <= count
      invariant PairsSoFar(start, result, asInt)
      decreases count - |result|
    {
      WithinRun(start, end, |result|);
      PairsAdvance(start, result, asInt);
      result := result + [PairOf(cur, asInt)];
      if cur == MaxDate {
        NothingAfterMax(end);
        return Err(OverflowError);
      }
      NextDayValid(cur);
      cur := NextDay(cur);
    }
    PastRun(start, end, |result|);
    return Ok(result);
  }

  /** The pairs of a day run are consecutive calendar days: each string
      pair is two two-digit fields that read back as the month and day,
      and the pairs follow one another as the days do. */
  lemma PairsText(start: Date, n: nat)
    requires WellFormed(start)
    ensures AllWellFormed(DaysFrom(start, n))
    ensures var ps := PairsOf(DaysFrom(start, n), false);
      forall i :: 0 <= i < n ==>
        |ps[i].mm| == 2 && |ps[i].dd| == 2 && AllDigits(ps[i].mm) && AllDigits(ps[i].dd)
        && ParseDigits(ps[i].mm) == DaysFrom(start, n)[i].month
        && ParseDigits(ps[i].dd) == DaysFrom(start, n)[i].day
  {
    var ds := DaysFrom(start, n);
    forall i | 0 <= i < n
      ensures |ZeroPad(ds[i].month, 2)| == 2 && |ZeroPad(ds[i].day, 2)| == 2
      ensures ParseDigits(ZeroPad(ds[i].month, 2)) == ds[i].month
      ensures ParseDigits(ZeroPad(ds[i].day, 2)) == ds[i].day
    {
      assert Pow10(2) == 100;
      ZeroPadLength(ds[i].month, 2);
      ZeroPadLength(ds[i].day, 2);
      ParseZeroPad(ds[i].month, 2);
      ParseZeroPad(ds[i].day, 2);
    }
  }

  /** The integer pairs of a day run step through the calendar: the pair
      after `(m, d)` is `(m, d + 1)` within a month, `(m + 1, 1)` at a
      month's end and `(1, 1)` after 31 December. */
  lemma PairsStep(start: Date, n: nat, i: nat)
    requires WellFormed(start) && i + 1 < n
    ensures AllWellFormed(DaysFrom(start, n))
    ensures var ps := PairsOf(DaysFrom(start, n), true);
            var d := DaysFrom(start, n)[i];
            ps[i] == IntPair(d.month, d.day)
            && ps[i + 1] == (if d.day < DaysInMonth(d.year, d.month) then IntPair(d.month, d.day + 1)
                             else if d.month < 12 then IntPair(d.month + 1, 1) else IntPair(1, 1))
  {
    DaysFromStep(start, n, i);
  }

  // ---------------------------------------------------------------------
  // pct_from_vals

  /** pct_from_vals: drops NaNs; with nothing left maps p10, p25, p50, p75
      and p90 (not p95) to NaN, otherwise maps p10 through p95 to the
      linear-interpolation percentiles of the remaining values. Keys are
      named by `StatKeys.Name`. */
  function PctFromVals(vals: seq<Sample>): (r: map<StatKey, Sample>)
    ensures Present(vals) == [] ==>
      r.Keys == {P10, P25, P50, P75, P90} && forall k :: k in r ==> r[k].None?
    ensures Present(vals) != [] ==>
      r.Keys == {P10, P25, P50, P75, P90, P95} && forall k :: k in r ==> r[k].Some?
  {
    var v := Present(vals);
    if v == [] then
      map[P10 := None, P25 := None, P50 := None, P75 := None, P90 := None]
    else
      var s := SortAsc(v);
      map k | k in PctKeys :: Some(QuantileSorted(s, Level(k)))
  }

  /** The keys of `qs = [10, 25, 50, 75, 90, 95]`. */
  const PctKeys: set<StatKey> := {P10, P25, P50, P75, P90, P95}

  /** The probability of a percentile key: `q / 100`. */
  function Level(k: StatKey): (p: real)
    requires k in PctKeys
    ensures 0.0 <= p <= 1.0
  {
    match k
    case P10 => 0.1
    case P25 => 0.25
    case P50 => 0.5
    case P75 => 0.75
    case P90 => 0.9
    case P95 => 0.95
  }

  /** Where some value is present, the percentiles as a table of the
      sorted values. */
  lemma PctFromValsValues(vals: seq<Sample>)
    requires Present(vals) != []
    ensures var s := SortAsc(Present(vals)); var r := PctFromVals(vals);
      && r[P10] == Some(QuantileSorted(s, 0.1)) && r[P25] == Some(QuantileSorted(s, 0.25))
      && r[P50] == Some(QuantileSorted(s, 0.5)) && r[P75] == Some(QuantileSorted(s, 0.75))
      && r[P90] == Some(QuantileSorted(s, 0.9)) && r[P95] == Some(QuantileSorted(s, 0.95))
  {
  }

  /** When some value is present the percentiles are ordered and p50 is
      the NaN-skipping median. */
  lemma PctFromValsOrdered(vals: seq<Sample>)
    requires Present(vals) != []
    ensures var r := PctFromVals(vals);
      && r[P10].value <= r[P25].value <= r[P50].value
      && r[P50].value <= r[P75].value <= r[P90].value <= r[P95].value
      && r[P50] == NanMedian(vals)
  {
    var s := SortAsc(Present(vals));
    PctFromValsValues(vals);
    QuantileMonotone(s, 0.1, 0.25);
    QuantileMonotone(s, 0.25, 0.5);
    QuantileMonotone(s, 0.5, 0.75);
    QuantileMonotone(s, 0.75, 0.9);
    QuantileMonotone(s, 0.9, 0.95);
  }

  /** Every percentile lies between the smallest and the largest value
      that is not NaN. */
  lemma PctFromValsRange(vals: seq<Sample>)
    requires Present(vals) != []
    ensures var s := SortAsc(Present(vals));
      forall k :: k in PctFromVals(vals) ==> s[0] <= PctFromVals(vals)[k].value <= s[|s| - 1]
  {
    var s := SortAsc(Present(vals));
    var r := PctFromVals(vals);
    forall k | k in r
      ensures s[0] <= r[k].value <= s[|s| - 1]
    {
      QuantileBetween(s, Level(k));
    }
  }

  /** The key set depends on the input: all-NaN input has no p95. */
  lemma PctKeysDependOnInput()
    ensures P95 !in PctFromVals([None])
    ensures P95 in PctFromVals([Some(1.0)])
  {
    assert Present([None]) == [];
    assert Present([Some(1.0)]) == [1.0];
  }

  /** pct_from_vals with one key set for every input: all six keys, NaN
      when no value is present. */
  function PctFromValsUniform(vals: seq<Sample>): (r: map<StatKey, Sample>)
    ensures r.Keys == {P10, P25, P50, P75, P90, P95}
    ensures forall k :: k in r ==> (r[k].None? <==> Present(vals) == [])
    ensures Present(vals) != [] ==> r == PctFromVals(vals)
  {
    var v := Present(vals);
    if v == [] then
      map[P10 := None, P25 := None, P50 := None, P75 := None, P90 := None, P95 := None]
    else PctFromVals(vals)
  }
}
