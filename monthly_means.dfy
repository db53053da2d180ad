/** gen_means.py: for each month of a year, unless the month is marked
    done, gather the day files of that month from the temp listing, fold
    them into three time-ordered accumulators (speed in km/h, wind run as
    the unconverted speed, direction), reduce them over time (mean, sum,
    mean) and write the three monthly products.

    The accumulators are script-level variables, so they outlive the month
    that filled them; a variant `Corrected` of the script reads the done
    marks it writes and never reuses another month's data. Opening a file
    is the `read` parameter; the products written are returned in order. */
module MonthlyMeans {
  import opened Wrappers
  import opened Text
  import opened Seqs
  import opened Reduce
  import opened Calendar
  import DailyDriver
  import HourlyWinds

  /** The year the script averages. */
  const MeansYear := 1990

  /** The months it runs, `np.arange(1, 13)`. */
  const MeansMonths: seq<nat> := [1, 2, 3, 4, 5, 6, 7, 8, 9, 10, 11, 12]

  // ---------------------------------------------------------------------
  // month_mean and the file selection

  /** `month_mean`: concatenation along time, `da1`'s steps first. */
  function MonthMean(da1: Series, da2: Series): (r: Series)
    ensures |r| == |da1| + |da2|
    ensures r[..|da1|] == da1 && r[|da1|..] == da2
  {
    da1 + da2
  }

  /** `{year}{MM}`, the substring that selects a month's day files. */
  function MonthKey(year: nat, month: nat): string
  {
    Decimal(year) + ZeroPad(month, 2)
  }

  function MonthFiles(listing: seq<string>, year: nat, month: nat): seq<string>
  {
    Filter(listing, f => Contains(f, MonthKey(year, month)))
  }

  /** The download of every day of the month is among its day files. */
  lemma MonthFilesComplete(e: Date, listing: seq<string>)
    requires ValidDate(e) && e.year >= 1000
    requires DailyDriver.DownloadName(Format(e)) in listing
    ensures DailyDriver.DownloadName(Format(e)) in MonthFiles(listing, e.year, e.month)
  {
    assert Pow10(3) == 1000;
    ZeroPadUnpadded(e.year, 4);
    var s := DailyDriver.DownloadName(Format(e));
    var k := MonthKey(e.year, e.month);
    assert s == k + (ZeroPad(e.day, 2) + "12.nc");
    assert s[0..|k|] == k;
    ContainsAt(s, k, 0);
  }

  // ---------------------------------------------------------------------
  // Names

  const SpeedPrefix := "wind_speed_monthly_"
  const RunPrefix := "wind_run_monthly_"
  const DirPrefix := "wind_direction_monthly_"

  /** `{prefix}{year}-{MM}.h5`, a monthly product in the save directory. */
  function ProductName(prefix: string, year: nat, month: nat): string
  {
    prefix + Decimal(year) + "-" + ZeroPad(month, 2) + ".h5"
  }

  /** The three products a month writes. */
  function OutputNames(year: nat, month: nat): set<string>
  {
    {ProductName(SpeedPrefix, year, month), ProductName(RunPrefix, year, month),
     ProductName(DirPrefix, year, month)}
  }

  /** `{year}_{MM}_month_mean.nc`, the name the script tests before a
      month. */
  function SkipName(year: nat, month: nat): string
  {
    Decimal(year) + "_" + ZeroPad(month, 2) + "_month_mean.nc"
  }

  /** The rule that decides a month is done. */
  datatype Variant =
    | AsWritten   // the month is done when SkipName exists; an empty month reuses the accumulators
    | Corrected   // the month is done when its three products exist; an empty month writes nothing

  predicate Done(v: Variant, saved: set<string>, year: nat, month: nat)
  {
    match v
    case AsWritten => SkipName(year, month) in saved
    case Corrected => OutputNames(year, month) <= saved
  }

  // ---------------------------------------------------------------------
  // Accumulation and reduction

  /** The three accumulators. */
  datatype Acc = Acc(speed: Series, run: Series, dir: Series)

  /** What the accumulators hold after the day files of a month: speeds in
      km/h, the raw speeds for wind run, and directions, each concatenated
      in file order. */
  function MonthAcc(files: seq<string>, read: string -> HourlyWinds.DayData): Acc
  {
    Acc(Flatten(HourlyWinds.Speeds(files, read)), Flatten(HourlyWinds.RawSpeeds(files, read)),
        Flatten(HourlyWinds.Dirs(files, read)))
  }

  /** Every file's fields lie on the same grid of `width` cells. */
  ghost predicate Gridded(read: string -> HourlyWinds.DayData, width: nat)
  {
    forall f :: Rectangular(read(f).speed, width) && Rectangular(read(f).dir, width)
  }

  predicate AccOn(acc: Acc, width: nat)
  {
    Rectangular(acc.speed, width) && Rectangular(acc.run, width) && Rectangular(acc.dir, width)
  }

  lemma MonthAccOn(files: seq<string>, read: string -> HourlyWinds.DayData, width: nat)
    requires Gridded(read, width)
    ensures AccOn(MonthAcc(files, read), width)
  {
    FlattenRectangular(HourlyWinds.Speeds(files, read), width);
    FlattenRectangular(HourlyWinds.RawSpeeds(files, read), width);
    FlattenRectangular(HourlyWinds.Dirs(files, read), width);
  }

  /** A product written to the save directory. */
  datatype Product = Product(name: string, field: Frame)

  /** The month's products: mean speed, summed wind run, mean direction. */
  function Reductions(year: nat, month: nat, acc: Acc, width: nat): seq<Product>
    requires AccOn(acc, width)
  {
    [Product(ProductName(SpeedPrefix, year, month), OverTime(acc.speed, width, NanMean)),
     Product(ProductName(RunPrefix, year, month), OverTime(acc.run, width, SumSample)),
     Product(ProductName(DirPrefix, year, month), OverTime(acc.dir, width, NanMean))]
  }

  // ---------------------------------------------------------------------
  // The script

  /** Why the script stops. */
  datatype MeansError =
    | Unbound        // an empty month before any month filled the accumulators (NameError)
    | BadTimestamp   // more day files than days: `pd.Timestamp` rejects the day (ValueError)

  /** The script after some months: the products written, the
      accumulators (`None` while unbound), and the error it stopped on. */
  datatype RunState = RunState(products: seq<Product>, acc: Option<Acc>, error: Option<MeansError>)

  predicate StateOn(st: RunState, width: nat)
  {
    st.acc.Some? ==> AccOn(st.acc.value, width)
  }

  /** One month of the script. */
  function MonthStep(v: Variant, year: nat, month: nat, listing: seq<string>, saved: set<string>,
                     read: string -> HourlyWinds.DayData, width: nat, st: RunState): (r: RunState)
    requires 1 <= month <= 12 && Gridded(read, width) && StateOn(st, width)
    ensures StateOn(r, width)
  {
    var files := MonthFiles(listing, year, month);
    if st.error.Some? || Done(v, saved, year, month) then st
    else if |files| > DaysInMonth(year, month) then RunState(st.products, st.acc, Some(BadTimestamp))
    else if files != [] then
      var acc := MonthAcc(files, read);
      MonthAccOn(files, read, width);
      RunState(st.products + Reductions(year, month, acc, width), Some(acc), None)
    else if v == Corrected then st
    else if st.acc == None then RunState(st.products, None, Some(Unbound))
    else RunState(st.products + Reductions(year, month, st.acc.value, width), st.acc, None)
  }

  predicate ValidMonths(months: seq<nat>)
  {
    forall i :: 0 <= i < |months| ==> 1 <= months[i] <= 12
  }

  /** The script over `months`, in order. */
  function MeansRun(v: Variant, year: nat, months: seq<nat>, listing: seq<string>, saved: set<string>,
                    read: string -> HourlyWinds.DayData, width: nat): (r: RunState)
    requires ValidMonths(months) && Gridded(read, width)
    ensures StateOn(r, width)
  {
    if months == [] then RunState([], None, None)
    else
      var prev := MeansRun(v, year, months[..|months| - 1], listing, saved, read, width);
      MonthStep(v, year, months[|months| - 1], listing, saved, read, width, prev)
  }

  /** The first file initialises the accumulators and every later one is
      appended to them. */
  lemma MonthAccStep(files: seq<string>, k: nat, read: string -> HourlyWinds.DayData)
    requires k < |files|
    ensures var d := read(files[k]); var next := MonthAcc(files[..k + 1], read);
      k == 0 ==> next == Acc(Scale(d.speed, KnotsToKmh), d.speed, d.dir)
    ensures var d := read(files[k]); var next := MonthAcc(files[..k + 1], read);
      var acc := MonthAcc(files[..k], read);
      k > 0 ==> next == Acc(MonthMean(acc.speed, Scale(d.speed, KnotsToKmh)), MonthMean(acc.run, d.speed),
                            MonthMean(acc.dir, d.dir))
  {
    HourlyWinds.AccumulateStep(files, k, read);
    assert Flatten(HourlyWinds.RawSpeeds(files[..0], read)) == [];
  }

  /** The day loop of one month: `day` counts the files from 1; the first
      file initialises the accumulators and every later file is appended
      with `month_mean`. The timestamp built from `day` fails once `day`
      passes the month's length; with no file the accumulators keep what
      they held. */
  method AccumulateMonth(year: nat, month: nat, files: seq<string>, read: string -> HourlyWinds.DayData,
                         ws0: Series, wr0: Series, wd0: Series)
    returns (ok: bool, ws: Series, wr: Series, wd: Series, day: nat)
    requires 1 <= month <= 12
    ensures ok <==> |files| <= DaysInMonth(year, month)
    ensures ok ==> day == |files| + 1
    ensures ok && files == [] ==> ws == ws0 && wr == wr0 && wd == wd0
    ensures ok && files != [] ==> Acc(ws, wr, wd) == MonthAcc(files, read)
  {
    ws, wr, wd := ws0, wr0, wd0;
    day := 1;
    for k := 0 to |files|
      invariant day == k + 1 && k <= DaysInMonth(year, month)
      invariant k == 0 ==> ws == ws0 && wr == wr0 && wd == wd0
      invariant k > 0 ==> Acc(ws, wr, wd) == MonthAcc(files[..k], read)
    {
      if day > DaysInMonth(year, month) {
        return false, ws, wr, wd, day;
      }
      var data := read(files[k]);
      var wsKm := Scale(data.speed, KnotsToKmh);
      var wrDa := data.speed;
      var wdDa := data.dir;
      MonthAccStep(files, k, read);
      if day == 1 {
        ws, wr, wd := wsKm, wrDa, wdDa;
      } else {
        ws := MonthMean(ws, wsKm);
        wr := MonthMean(wr, wrDa);
        wd := MonthMean(wd, wdDa);
      }
      day := day + 1;
    }
    assert files[..|files|] == files;
    ok := true;
  }

  /** The script: the months in order; it stops at the first error. */
  method GenMeans(v: Variant, year: nat, months: seq<nat>, listing: seq<string>, saved: set<string>,
                  read: string -> HourlyWinds.DayData, width: nat)
    returns (products: seq<Product>, error: Option<MeansError>)
    requires ValidMonths(months) && Gridded(read, width)
    ensures products == MeansRun(v, year, months, listing, saved, read, width).products
    ensures error == MeansRun(v, year, months, listing, saved, read, width).error
  {
    products := [];
    var bound := false;
    var wsMonth, wrMonth, wdMonth: Series := [], [], [];
    for i := 0 to |months|
      invariant RunState(products, if bound then Some(Acc(wsMonth, wrMonth, wdMonth)) else None, None)
                == MeansRun(v, year, months[..i], listing, saved, read, width)
    {
      var mm := months[i];
      ghost var st := MeansRun(v, year, months[..i], listing, saved, read, width);
      RunSnoc(v, year, months, i, listing, saved, read, width);
      if Done(v, saved, year, mm) {
        continue;
      }
      var monthFiles := MonthFiles(listing, year, mm);
      if v == Corrected && monthFiles == [] {
        continue;
      }
      var ok, ws, wr, wd, day := AccumulateMonth(year, mm, monthFiles, read, wsMonth, wrMonth, wdMonth);
      if !ok {
        ErrorStays(v, year, months, i + 1, listing, saved, read, width);
        return products, Some(BadTimestamp);
      }
      if monthFiles != [] {
        MonthAccOn(monthFiles, read, width);
      }
      wsMonth, wrMonth, wdMonth := ws, wr, wd;
      bound := bound || monthFiles != [];
      if !bound {
        ErrorStays(v, year, months, i + 1, listing, saved, read, width);
        return products, Some(Unbound);
      }
      products := products + Reductions(year, mm, Acc(wsMonth, wrMonth, wdMonth), width);
    }
    assert months[..|months|] == months;
    error := None;
  }

  /** The script over a prefix one month longer is one more step. */
  lemma RunSnoc(v: Variant, year: nat, months: seq<nat>, i: nat, listing: seq<string>, saved: set<string>,
                read: string -> HourlyWinds.DayData, width: nat)
    requires ValidMonths(months) && Gridded(read, width) && i < |months|
    ensures MeansRun(v, year, months[..i + 1], listing, saved, read, width)
            == MonthStep(v, year, months[i], listing, saved, read, width,
                         MeansRun(v, year, months[..i], listing, saved, read, width))
  {
    assert months[..i + 1][..i] == months[..i];
  }

  /** Once the script stops, later months change nothing. */
  lemma {:induction false} ErrorStays(v: Variant, year: nat, months: seq<nat>, k: nat, listing: seq<string>,
                                      saved: set<string>, read: string -> HourlyWinds.DayData, width: nat)
    requires ValidMonths(months) && Gridded(read, width) && k <= |months|
    requires MeansRun(v, year, months[..k], listing, saved, read, width).error.Some?
    ensures MeansRun(v, year, months, listing, saved, read, width)
            == MeansRun(v, year, months[..k], listing, saved, read, width)
    decreases |months|
  {
    if k < |months| {
      var init := months[..|months| - 1];
      assert init[..k] == months[..k];
      ErrorStays(v, year, init, k, listing, saved, read, width);
    } else {
      assert months[..k] == months;
    }
  }

  // ---------------------------------------------------------------------
  // What a month writes

  /** The speed accumulator is the wind-run accumulator converted to km/h,
      and all three run over as many steps as the month's files hold. */
  lemma MonthAccFacts(files: seq<string>, read: string -> HourlyWinds.DayData)
    ensures var acc := MonthAcc(files, read);
            && acc.speed == Scale(acc.run, KnotsToKmh)
            && |acc.run| == TotalLength(HourlyWinds.RawSpeeds(files, read))
            && |acc.dir| == TotalLength(HourlyWinds.Dirs(files, read))
  {
    HourlyWinds.ScaleFlatten(files, read);
    FlattenLength(HourlyWinds.RawSpeeds(files, read));
    FlattenLength(HourlyWinds.Dirs(files, read));
  }

  /** Cell by cell, the mean speed written is the mean of the knots the
      wind run sums, converted to km/h; the wind run is the NaN-skipping
      sum of the unconverted speed; the direction is the NaN-skipping
      mean. */
  lemma ReductionsFacts(year: nat, month: nat, files: seq<string>, read: string -> HourlyWinds.DayData,
                        width: nat, c: nat)
    requires Gridded(read, width) && c < width
    ensures AccOn(MonthAcc(files, read), width)
    ensures var acc := MonthAcc(files, read);
            var ps := Reductions(year, month, acc, width);
            && ps[0].field[c] == ScaleSample(NanMean(Column(acc.run, c)), KnotsToKmh)
            && ps[1].field[c] == Some(NanSum(Column(acc.run, c)))
            && ps[2].field[c] == NanMean(Column(acc.dir, c))
  {
    MonthAccOn(files, read, width);
    MonthAccFacts(files, read);
    var acc := MonthAcc(files, read);
    var ps := Reductions(year, month, acc, width);
    ColumnScale(acc.run, KnotsToKmh, c);
    assert Column(acc.speed, c) == ScaleSamples(Column(acc.run, c), KnotsToKmh);
    MeanScale(Column(acc.run, c), KnotsToKmh);
    assert ps[0].field[c] == NanMean(Column(acc.speed, c));
    assert ps[1].field[c] == SumSample(Column(acc.run, c));
    assert ps[2].field[c] == NanMean(Column(acc.dir, c));
  }

  // The done mark

  /** The name the script tests is never one it writes: it ends in `.nc`,
      every product in `.h5`. */
  lemma SkipNameNeverWritten(year: nat, month: nat, y2: nat, m2: nat)
    ensures SkipName(year, month) !in OutputNames(y2, m2)
  {
    var s := SkipName(year, month);
    assert s[|s| - 1] == 'c';
    var a, b, c := ProductName(SpeedPrefix, y2, m2), ProductName(RunPrefix, y2, m2), ProductName(DirPrefix, y2, m2);
    assert a[|a| - 1] == '5' && b[|b| - 1] == '5' && c[|c| - 1] == '5';
  }

  /** The names of a list of products. */
  function Names(ps: seq<Product>): set<string>
  {
    set i | 0 <= i < |ps| :: ps[i].name
  }

  lemma NamesAppend(a: seq<Product>, b: seq<Product>)
    ensures Names(a + b) == Names(a) + Names(b)
  {
    forall n | n in Names(a + b)
      ensures n in Names(a) + Names(b)
    {
      var i :| 0 <= i < |a + b| && (a + b)[i].name == n;
      if i >= |a| {
        assert b[i - |a|].name == n;
      }
    }
    forall n | n in Names(a)
      ensures n in Names(a + b)
    {
      var i :| 0 <= i < |a| && a[i].name == n;
      assert (a + b)[i] == a[i];
    }
    forall n | n in Names(b)
      ensures n in Names(a + b)
    {
      var i :| 0 <= i < |b| && b[i].name == n;
      assert (a + b)[|a| + i] == b[i];
    }
  }

  /** A month's products are named after that month, one per name. */
  lemma ReductionsNames(year: nat, month: nat, acc: Acc, width: nat)
    requires AccOn(acc, width)
    ensures Names(Reductions(year, month, acc, width)) == OutputNames(year, month)
  {
    var ps := Reductions(year, month, acc, width);
    assert ps[0].name in Names(ps) && ps[1].name in Names(ps) && ps[2].name in Names(ps);
  }

  /** A step keeps what was written and adds only products of its month. */
  lemma StepProducts(v: Variant, year: nat, month: nat, listing: seq<string>, saved: set<string>,
                     read: string -> HourlyWinds.DayData, width: nat, st: RunState)
    requires 1 <= month <= 12 && Gridded(read, width) && StateOn(st, width)
    ensures var r := MonthStep(v, year, month, listing, saved, read, width, st);
            && st.products <= r.products
            && Names(r.products) <= Names(st.products) + OutputNames(year, month)
  {
    var files := MonthFiles(listing, year, month);
    if st.error.None? && !Done(v, saved, year, month) && |files| <= DaysInMonth(year, month) {
      if files != [] {
        MonthAccOn(files, read, width);
        ReductionsNames(year, month, MonthAcc(files, read), width);
        NamesAppend(st.products, Reductions(year, month, MonthAcc(files, read), width));
      } else if v == AsWritten && st.acc.Some? {
        ReductionsNames(year, month, st.acc.value, width);
        NamesAppend(st.products, Reductions(year, month, st.acc.value, width));
      }
    }
  }

  /** The script as written writes no name it tests. */
  lemma {:induction false} NoSkipNameWritten(v: Variant, year: nat, months: seq<nat>, listing: seq<string>,
                                             saved: set<string>, read: string -> HourlyWinds.DayData, width: nat)
    requires ValidMonths(months) && Gridded(read, width)
    ensures forall m: nat :: SkipName(year, m) !in Names(MeansRun(v, year, months, listing, saved, read, width).products)
  {
    if months != [] {
      var init, last := months[..|months| - 1], months[|months| - 1];
      NoSkipNameWritten(v, year, init, listing, saved, read, width);
      StepProducts(v, year, last, listing, saved, read, width, MeansRun(v, year, init, listing, saved, read, width));
      forall m: nat
        ensures SkipName(year, m) !in Names(MeansRun(v, year, months, listing, saved, read, width).products)
      {
        SkipNameNeverWritten(year, m, year, last);
      }
    }
  }

  /** The script as written never sees its own products: adding any names
      but done marks to the save directory changes nothing it does. */
  lemma {:induction false} AsWrittenIgnoresProducts(year: nat, months: seq<nat>, listing: seq<string>,
                                                    saved: set<string>, extra: set<string>,
                                                    read: string -> HourlyWinds.DayData, width: nat)
    requires ValidMonths(months) && Gridded(read, width)
    requires forall m: nat :: SkipName(year, m) !in extra
    ensures MeansRun(AsWritten, year, months, listing, saved + extra, read, width)
            == MeansRun(AsWritten, year, months, listing, saved, read, width)
  {
    if months != [] {
      AsWrittenIgnoresProducts(year, months[..|months| - 1], listing, saved, extra, read, width);
    }
  }

  /** So a second run over the products of the first does every month's
      work again and writes the same products again. */
  lemma AsWrittenRerunRepeats(year: nat, months: seq<nat>, listing: seq<string>, saved: set<string>,
                              read: string -> HourlyWinds.DayData, width: nat)
    requires ValidMonths(months) && Gridded(read, width)
    ensures var first := MeansRun(AsWritten, year, months, listing, saved, read, width);
            MeansRun(AsWritten, year, months, listing, saved + Names(first.products), read, width) == first
  {
    var first := MeansRun(AsWritten, year, months, listing, saved, read, width);
    NoSkipNameWritten(AsWritten, year, months, listing, saved, read, width);
    AsWrittenIgnoresProducts(year, months, listing, saved, Names(first.products), read, width);
  }

  /** With the corrected done mark, a run that finished without error
      leaves every month done or without files: running again over its
      products, or anything more, writes nothing and stops on nothing. */
  lemma {:induction false} CorrectedRerunWritesNothing(year: nat, months: seq<nat>, listing: seq<string>,
                                                       saved: set<string>, again: set<string>,
                                                       read: string -> HourlyWinds.DayData, width: nat)
    requires ValidMonths(months) && Gridded(read, width)
    requires MeansRun(Corrected, year, months, listing, saved, read, width).error.None?
    requires saved + Names(MeansRun(Corrected, year, months, listing, saved, read, width).products) <= again
    ensures MeansRun(Corrected, year, months, listing, again, read, width) == RunState([], None, None)
  {
    if months != [] {
      var init, m := months[..|months| - 1], months[|months| - 1];
      var first := MeansRun(Corrected, year, months, listing, saved, read, width);
      var firstInit := MeansRun(Corrected, year, init, listing, saved, read, width);
      StepProducts(Corrected, year, m, listing, saved, read, width, firstInit);
      NamesGrow(firstInit.products, first.products);
      CorrectedRerunWritesNothing(year, init, listing, saved, again, read, width);
      var files := MonthFiles(listing, year, m);
      if !Done(Corrected, again, year, m) && files != [] {
        MonthAccOn(files, read, width);
        var written := Reductions(year, m, MonthAcc(files, read), width);
        ReductionsNames(year, m, MonthAcc(files, read), width);
        NamesAppend(firstInit.products, written);
        assert false;
      }
    }
  }

  lemma NamesGrow(a: seq<Product>, b: seq<Product>)
    requires a <= b
    ensures Names(a) <= Names(b)
  {
    forall n | n in Names(a)
      ensures n in Names(b)
    {
      var i :| 0 <= i < |a| && a[i].name == n;
      assert b[i] == a[i];
    }
  }

  // ---------------------------------------------------------------------
  // Months without files

  /** The script as written, on a month with day files followed by a month
      without any: the second month's products carry the first month's
      fields under the second month's names. */
  lemma AsWrittenEmptyMonthRepeats(year: nat, m1: nat, m2: nat, listing: seq<string>, saved: set<string>,
                                   read: string -> HourlyWinds.DayData, width: nat)
    requires 1 <= m1 <= 12 && 1 <= m2 <= 12 && Gridded(read, width)
    requires !Done(AsWritten, saved, year, m1) && !Done(AsWritten, saved, year, m2)
    requires MonthFiles(listing, year, m1) != [] && |MonthFiles(listing, year, m1)| <= DaysInMonth(year, m1)
    requires MonthFiles(listing, year, m2) == []
    ensures var r := MeansRun(AsWritten, year, [m1, m2], listing, saved, read, width);
            && r.error.None? && |r.products| == 6
            && forall j :: 0 <= j < 3 ==> r.products[3 + j].field == r.products[j].field
  {
    var files := MonthFiles(listing, year, m1);
    MonthAccOn(files, read, width);
    assert [m1, m2][..1] == [m1];
    assert [m1][..0] == [];
    var acc := MonthAcc(files, read);
    var r0 := MeansRun(AsWritten, year, [], listing, saved, read, width);
    var r1 := MeansRun(AsWritten, year, [m1], listing, saved, read, width);
    assert r1 == MonthStep(AsWritten, year, m1, listing, saved, read, width, r0);
    assert r1 == RunState(Reductions(year, m1, acc, width), Some(acc), None);
    var r2 := MeansRun(AsWritten, year, [m1, m2], listing, saved, read, width);
    assert r2 == MonthStep(AsWritten, year, m2, listing, saved, read, width, r1);
    assert r2 == RunState(r1.products + Reductions(year, m2, acc, width), Some(acc), None);
    ReductionsFields(year, m1, m2, acc, width);
  }

  /** The fields of the products do not depend on the month they are named after. */
  lemma ReductionsFields(year: nat, m1: nat, m2: nat, acc: Acc, width: nat)
    requires AccOn(acc, width)
    ensures var a, b := Reductions(year, m1, acc, width), Reductions(year, m2, acc, width);
            |a| == |b| == 3 && forall j :: 0 <= j < 3 ==> a[j].field == b[j].field
  {
  }

  /** The script as written stops with a NameError on a first month
      without day files. */
  lemma AsWrittenFirstEmptyMonthFails(year: nat, m: nat, listing: seq<string>, saved: set<string>,
                                      read: string -> HourlyWinds.DayData, width: nat)
    requires 1 <= m <= 12 && Gridded(read, width)
    requires !Done(AsWritten, saved, year, m) && MonthFiles(listing, year, m) == []
    ensures MeansRun(AsWritten, year, [m], listing, saved, read, width).error == Some(Unbound)
  {
    assert [m][..0] == [];
  }

  /** The products a month writes from its own files alone. */
  function OwnProducts(year: nat, month: nat, listing: seq<string>, saved: set<string>,
                       read: string -> HourlyWinds.DayData, width: nat): seq<Product>
    requires Gridded(read, width)
  {
    var files := MonthFiles(listing, year, month);
    if Done(Corrected, saved, year, month) || files == [] then []
    else
      MonthAccOn(files, read, width);
      Reductions(year, month, MonthAcc(files, read), width)
  }

  /** The corrected script writes, month by month, only what each month's
      own files give: a month without files writes nothing and the
      accumulators of one month never reach another. */
  lemma {:induction false} CorrectedUsesOwnFiles(year: nat, months: seq<nat>, listing: seq<string>,
                                                 saved: set<string>, read: string -> HourlyWinds.DayData,
                                                 width: nat)
    requires ValidMonths(months) && Gridded(read, width)
    ensures var r := MeansRun(Corrected, year, months, listing, saved, read, width);
            r.error.None? ==>
              r.products == Flatten(seq(|months|, i requires 0 <= i < |months| =>
                                          OwnProducts(year, months[i], listing, saved, read, width)))
  {
    if months != [] {
      var init, last := months[..|months| - 1], months[|months| - 1];
      var prev := MeansRun(Corrected, year, init, listing, saved, read, width);
      CorrectedStep(year, last, listing, saved, read, width, prev);
      var own := seq(|months|, i requires 0 <= i < |months| =>
                       OwnProducts(year, months[i], listing, saved, read, width));
      var ownInit := seq(|init|, i requires 0 <= i < |init| =>
                           OwnProducts(year, init[i], listing, saved, read, width));
      assert own == ownInit + [OwnProducts(year, last, listing, saved, read, width)];
      FlattenSnoc(ownInit, OwnProducts(year, last, listing, saved, read, width));
      CorrectedUsesOwnFiles(year, init, listing, saved, read, width);
    }
  }

  /** One month of the corrected script appends that month's own products. */
  lemma CorrectedStep(year: nat, month: nat, listing: seq<string>, saved: set<string>,
                      read: string -> HourlyWinds.DayData, width: nat, st: RunState)
    requires 1 <= month <= 12 && Gridded(read, width) && StateOn(st, width)
    ensures var r := MonthStep(Corrected, year, month, listing, saved, read, width, st);
            r.error.None? ==>
              st.error.None? && r.products == st.products + OwnProducts(year, month, listing, saved, read, width)
  {
    var files := MonthFiles(listing, year, month);
    if Done(Corrected, saved, year, month) || files == [] {
      assert st.products + [] == st.products;
    }
  }
}
