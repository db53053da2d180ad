/** gen_windspeed_climatology.py: the 30-year statistics of hourly wind
    speed, per month and per meteorological season, from the hourly
    products in the daily directory.

    A month's files are the listed names holding `m{MM}` and `windspeed`;
    a season's are its months' `m{MM}` matches one month after the other.
    The files' fields are concatenated over time and `all_stats` reduces
    them to mean, median, std and five quantiles. Opening a file and
    taking its wind speed variable is the `read` parameter; a file holds
    a variable exactly when its name carries that variable's tag, as the
    hourly products in the daily directory do. */
module Climatology {
  import opened Wrappers
  import opened Text
  import opened Seqs
  import opened Reduce
  import opened StatKeys
  import opened Buckets

  /** The months the monthly pass runs (the script's `months`). */
  const ClimMonths: seq<nat> := [3, 4]

  // ---------------------------------------------------------------------
  // Seasons

  /** The meteorological seasons, in the order of the `seasons` table. */
  datatype Season = DJF | MAM | JJA | SON

  const SeasonOrder: seq<Season> := [DJF, MAM, JJA, SON]

  /** The months of a season, in the table's order (December first). */
  function SeasonMonths(s: Season): (ms: seq<nat>)
    ensures |ms| == 3
  {
    match s
    case DJF => [12, 1, 2]
    case MAM => [3, 4, 5]
    case JJA => [6, 7, 8]
    case SON => [9, 10, 11]
  }

  /** The season a month belongs to. */
  function SeasonOf(month: nat): (s: Season)
    requires 1 <= month <= 12
    ensures month in SeasonMonths(s)
  {
    if month == 12 || month <= 2 then DJF
    else if month <= 5 then MAM
    else if month <= 8 then JJA
    else SON
  }

  /** The seasons partition the months: every month 1..12 is in exactly
      one season, and every season's months are months. */
  lemma SeasonsPartition(month: nat, s: Season)
    ensures month in SeasonMonths(s) ==> 1 <= month <= 12
    ensures 1 <= month <= 12 ==> (month in SeasonMonths(s) <==> s == SeasonOf(month))
  {
  }

  // ---------------------------------------------------------------------
  // File selection

  /** The listed names holding `m{MM}`. */
  function MonthFiles(listing: seq<string>, month: nat): seq<string>
  {
    Filter(listing, f => Contains(f, MonthPattern(month)))
  }

  /** The names holding `windspeed`. */
  function SpeedOnly(files: seq<string>): seq<string>
  {
    Filter(files, f => Contains(f, SpeedTag))
  }

  /** A month's names holding `windspeed`. */
  function SpeedFiles(listing: seq<string>, month: nat): seq<string>
  {
    SpeedOnly(MonthFiles(listing, month))
  }

  /** A listed name is among the files `keep` selects exactly when it
      satisfies `keep`. */
  lemma FilterMember(listing: seq<string>, keep: string -> bool, f: string)
    requires f in listing
    ensures f in Filter(listing, keep) <==> keep(f)
  {
    var r := Filter(listing, keep);
    if f in r {
      var i :| 0 <= i < |r| && r[i] == f;
    }
  }

  /** Over hourly products, a month's speed files are exactly that month's
      speed products: direction products and other months are never
      picked up. */
  lemma SpeedFilesSelect(listing: seq<string>, mm: nat, tag: string, month: nat, day: nat)
    requires IsTag(tag) && 1 <= mm <= 12 && 1 <= month <= 12
    requires HourlyName(tag, month, day) in listing
    ensures HourlyName(tag, month, day) in SpeedFiles(listing, mm) <==> tag == SpeedTag && month == mm
  {
    var f := HourlyName(tag, month, day);
    MonthPatternSelects(tag, mm, month, day);
    TagSelects(SpeedTag, tag, month, day);
    FilterMember(listing, g => Contains(g, MonthPattern(mm)), f);
    if f in MonthFiles(listing, mm) {
      FilterMember(MonthFiles(listing, mm), g => Contains(g, SpeedTag), f);
    } else {
      assert f !in SpeedFiles(listing, mm);
    }
  }

  /** A season's files: each of its months' matches, month after month
      (`season_files.extend(...)`). */
  function SeasonFileList(listing: seq<string>, months: seq<nat>): seq<string>
  {
    Flatten(seq(|months|, i requires 0 <= i < |months| => MonthFiles(listing, months[i])))
  }

  method SeasonFiles(listing: seq<string>, months: seq<nat>) returns (files: seq<string>)
    ensures files == SeasonFileList(listing, months)
  {
    files := [];
    for i := 0 to |months|
      invariant files == SeasonFileList(listing, months[..i])
    {
      var pieces := seq(i + 1, j requires 0 <= j < i + 1 => MonthFiles(listing, months[..i + 1][j]));
      assert pieces[..i] == seq(i, j requires 0 <= j < i => MonthFiles(listing, months[..i][j]));
      files := files + MonthFiles(listing, months[i]);
    }
    assert months[..|months|] == months;
  }

  /** A file is in the concatenation exactly when it is in one piece. */
  lemma {:induction false} FlattenMember(xss: seq<seq<string>>, f: string)
    ensures f in Flatten(xss) <==> exists i :: 0 <= i < |xss| && f in xss[i]
  {
    if xss != [] {
      var init := xss[..|xss| - 1];
      FlattenMember(init, f);
      if exists i :: 0 <= i < |init| && f in init[i] {
        var i :| 0 <= i < |init| && f in init[i];
        assert xss[i] == init[i];
      }
      if exists i :: 0 <= i < |xss| && f in xss[i] {
        var i :| 0 <= i < |xss| && f in xss[i];
        if i < |init| {
          assert init[i] == xss[i];
        }
      }
    }
  }

  /** Over hourly products, a season's files are exactly the products of
      the season's months, of either variable. */
  lemma SeasonFilesSelect(listing: seq<string>, s: Season, tag: string, month: nat, day: nat)
    requires IsTag(tag) && 1 <= month <= 12
    requires HourlyName(tag, month, day) in listing
    ensures HourlyName(tag, month, day) in SeasonFileList(listing, SeasonMonths(s)) <==> SeasonOf(month) == s
  {
    var f := HourlyName(tag, month, day);
    var ms := SeasonMonths(s);
    var pieces := seq(|ms|, i requires 0 <= i < |ms| => MonthFiles(listing, ms[i]));
    FlattenMember(pieces, f);
    forall i | 0 <= i < |ms|
      ensures f in pieces[i] <==> ms[i] == month
    {
      SeasonsPartition(ms[i], s);
      MonthPatternSelects(tag, ms[i], month, day);
      FilterMember(listing, g => Contains(g, MonthPattern(ms[i])), f);
    }
    SeasonsPartition(month, s);
  }

  // ---------------------------------------------------------------------
  // all_stats

  /** The statistics `all_stats` stores. */
  const AllStatKeys: set<StatKey> := {Mean, Median, Std, P10, P25, P75, P90, P95}

  /** The quantiles, as the script zips probabilities and names. */
  const Quantiles: seq<(real, StatKey)> := [(0.1, P10), (0.25, P25), (0.75, P75), (0.9, P90), (0.95, P95)]

  /** The quantile probabilities rise strictly from 0.1 to 0.95, and each
      is stored under its own name. */
  lemma QuantilesIncreasing()
    ensures Quantiles[0].0 == 0.1 && Quantiles[|Quantiles| - 1].0 == 0.95
    ensures forall i, j :: 0 <= i < j < |Quantiles| ==> Quantiles[i].0 < Quantiles[j].0
    ensures forall i, j :: 0 <= i < j < |Quantiles| ==> Quantiles[i].1 != Quantiles[j].1
  {
  }

  /** The reduction each statistic applies to a cell's samples over time
      (the `std` entry holds the population variance). */
  function StatFor(k: StatKey): seq<Sample> -> Sample
  {
    match k
    case Mean => NanMean
    case Median => MedianSample
    case Std => NanVariance
    case P10 => QuantileSample(0.1)
    case P25 => QuantileSample(0.25)
    case P50 => QuantileSample(0.5)
    case P75 => QuantileSample(0.75)
    case P90 => QuantileSample(0.9)
    case P95 => QuantileSample(0.95)
  }

  /** The dataset `all_stats` returns: every statistic reduced over time,
      cell by cell. */
  function Stats(da: Series, width: nat): (ds: map<StatKey, Frame>)
    requires Rectangular(da, width)
  {
    map k | k in AllStatKeys :: OverTime(da, width, StatFor(k))
  }

  /** The statistics `all_stats` has stored after `i` quantiles. */
  function FirstKeys(i: nat): set<StatKey>
    requires i <= |Quantiles|
  {
    {Mean, Median, Std} + set j | 0 <= j < i :: Quantiles[j].1
  }

  /** The dataset restricted to some statistics. */
  function Partial(da: Series, width: nat, keys: set<StatKey>): map<StatKey, Frame>
    requires Rectangular(da, width)
  {
    map k | k in keys :: OverTime(da, width, StatFor(k))
  }

  lemma PartialAdd(da: Series, width: nat, keys: set<StatKey>, k: StatKey)
    requires Rectangular(da, width)
    ensures Partial(da, width, keys)[k := OverTime(da, width, StatFor(k))] == Partial(da, width, keys + {k})
  {
  }

  lemma FirstKeysStep(i: nat)
    requires i < |Quantiles|
    ensures FirstKeys(i + 1) == FirstKeys(i) + {Quantiles[i].1}
  {
  }

  /** Each zipped probability is the quantile its name stands for. */
  lemma QuantileEntry(i: nat)
    requires i < |Quantiles|
    ensures 0.0 <= Quantiles[i].0 <= 1.0
    ensures StatFor(Quantiles[i].1) == QuantileSample(Quantiles[i].0)
  {
  }

  lemma FirstKeysAll()
    ensures FirstKeys(|Quantiles|) == AllStatKeys
  {
    assert Quantiles[0].1 == P10 && Quantiles[1].1 == P25 && Quantiles[2].1 == P75;
    assert Quantiles[3].1 == P90 && Quantiles[4].1 == P95;
  }

  lemma FirstThree(da: Series, width: nat)
    requires Rectangular(da, width)
    ensures map[Mean := OverTime(da, width, NanMean), Median := OverTime(da, width, MedianSample),
                Std := OverTime(da, width, NanVariance)] == Partial(da, width, FirstKeys(0))
  {
    assert FirstKeys(0) == {Mean, Median, Std};
  }

  /** `all_stats`: mean, median and std first, then one entry per zipped
      quantile. */
  method AllStats(da: Series, width: nat) returns (ds: map<StatKey, Frame>)
    requires Rectangular(da, width)
    ensures ds.Keys == AllStatKeys
    ensures ds == Stats(da, width)
  {
    ds := map[];
    ds := ds[Mean := OverTime(da, width, NanMean)];
    ds := ds[Median := OverTime(da, width, MedianSample)];
    ds := ds[Std := OverTime(da, width, NanVariance)];
    FirstThree(da, width);
    for i := 0 to |Quantiles|
      invariant ds == Partial(da, width, FirstKeys(i))
    {
      var (q, name) := Quantiles[i];
      QuantileEntry(i);
      PartialAdd(da, width, FirstKeys(i), name);
      FirstKeysStep(i);
      ds := ds[name := OverTime(da, width, QuantileSample(q))];
    }
    FirstKeysAll();
  }

  /** One cell of one statistic is that statistic of the cell's samples. */
  lemma StatCell(da: Series, width: nat, k: StatKey, c: nat)
    requires Rectangular(da, width) && k in AllStatKeys && c < width
    ensures Stats(da, width)[k][c] == StatFor(k)(Column(da, c))
  {
  }

  /** Every statistic is NaN exactly when all of its samples are. */
  lemma StatNaN(k: StatKey, xs: seq<Sample>)
    ensures StatFor(k)(xs).None? <==> Present(xs) == []
  {
  }

  /** Both samples are numbers and the first is at most the second. */
  predicate AtMost(a: Sample, b: Sample)
  {
    a.Some? && b.Some? && a.value <= b.value
  }

  /** One cell's quantiles rise with their probability, with the median
      between p25 and p75, once the cell has a number. */
  lemma CellOrdered(xs: seq<Sample>)
    requires Present(xs) != []
    ensures AtMost(StatFor(P10)(xs), StatFor(P25)(xs)) && AtMost(StatFor(P25)(xs), StatFor(Median)(xs))
    ensures AtMost(StatFor(Median)(xs), StatFor(P75)(xs)) && AtMost(StatFor(P75)(xs), StatFor(P90)(xs))
    ensures AtMost(StatFor(P90)(xs), StatFor(P95)(xs))
  {
    NanQuantileOrdered(xs, 0.1, 0.25);
    NanQuantileOrdered(xs, 0.25, 0.5);
    NanQuantileOrdered(xs, 0.5, 0.75);
    NanQuantileOrdered(xs, 0.75, 0.9);
    NanQuantileOrdered(xs, 0.9, 0.95);
  }

  /** A cell's statistics are NaN together, exactly when every sample of
      the cell is; otherwise the quantiles rise with their probability and
      the median lies between p25 and p75. */
  lemma StatsOrdered(da: Series, width: nat, c: nat)
    requires Rectangular(da, width) && c < width
    ensures forall k :: k in AllStatKeys ==>
              (Stats(da, width)[k][c].None? <==> Present(Column(da, c)) == [])
    ensures var ds := Stats(da, width);
            Present(Column(da, c)) != [] ==>
              && AtMost(ds[P10][c], ds[P25][c]) && AtMost(ds[P25][c], ds[Median][c])
              && AtMost(ds[Median][c], ds[P75][c]) && AtMost(ds[P75][c], ds[P90][c])
              && AtMost(ds[P90][c], ds[P95][c])
  {
    var col := Column(da, c);
    forall k | k in AllStatKeys
      ensures Stats(da, width)[k][c] == StatFor(k)(col)
    {
      StatCell(da, width, k, c);
    }
    forall k | k in AllStatKeys
      ensures Stats(da, width)[k][c].None? <==> Present(col) == []
    {
      StatNaN(k, col);
    }
    if Present(col) != [] {
      CellOrdered(col);
    }
  }

  // ---------------------------------------------------------------------
  // The passes

  /** Every file's wind speed lies on one grid of `width` cells. */
  ghost predicate Gridded(read: string -> Series, width: nat)
  {
    forall f :: Rectangular(read(f), width)
  }

  /** The fields of some files, in file order. */
  function Fields(files: seq<string>, read: string -> Series): (r: seq<Series>)
    ensures |r| == |files|
  {
    seq(|files|, i requires 0 <= i < |files| => read(files[i]))
  }

  lemma FieldsOn(files: seq<string>, read: string -> Series, width: nat)
    requires Gridded(read, width)
    ensures Rectangular(Flatten(Fields(files, read)), width)
  {
    FlattenRectangular(Fields(files, read), width);
  }

  /** The statistics of some files' fields, concatenated over time. */
  function FilesStats(files: seq<string>, read: string -> Series, width: nat): map<StatKey, Frame>
    requires Gridded(read, width)
  {
    FieldsOn(files, read, width);
    Stats(Flatten(Fields(files, read)), width)
  }

  /** The position of the first file whose name lacks the variable's tag:
      indexing that variable in the file raises KeyError there. None when
      every file holds the variable. */
  function FirstMissing(files: seq<string>, tag: string): (r: Option<nat>)
    ensures r.None? <==> forall i :: 0 <= i < |files| ==> Contains(files[i], tag)
    ensures r.Some? ==> && r.value < |files| && !Contains(files[r.value], tag)
                        && forall i :: 0 <= i < r.value ==> Contains(files[i], tag)
  {
    if files == [] then None
    else if !Contains(files[0], tag) then Some(0)
    else
      match FirstMissing(files[1..], tag)
      case None => None
      case Some(i) => Some(i + 1)
  }

  /** The loop that opens every file and appends its `tag` variable to
      `ws_list`, stopping with KeyError at a file without it. */
  method ReadAll(files: seq<string>, tag: string, read: string -> Series)
    returns (wsList: seq<Series>, missing: Option<nat>)
    ensures missing == FirstMissing(files, tag)
    ensures missing.None? ==> wsList == Fields(files, read)
  {
    wsList := [];
    for i := 0 to |files|
      invariant |wsList| == i
      invariant forall j :: 0 <= j < i ==> Contains(files[j], tag) && wsList[j] == read(files[j])
    {
      if !Contains(files[i], tag) {
        return wsList, Some(i);
      }
      wsList := wsList + [read(files[i])];
    }
    missing := None;
  }

  /** `1990-2020_monthly_windspeed_m{MM}.nc` in the monthly directory. */
  function MonthlyName(month: nat): string
  {
    "1990-2020_monthly_windspeed_m" + ZeroPad(month, 2) + ".nc"
  }

  /** A written dataset. */
  datatype Output = Output(name: string, stats: map<StatKey, Frame>)

  /** The monthly pass over `months`: one dataset per month with speed
      files, none for a month without. */
  function MonthlyOutputs(listing: seq<string>, months: seq<nat>, read: string -> Series, width: nat)
    : (r: seq<Output>)
    requires Gridded(read, width)
    ensures |r| <= |months|
  {
    if months == [] then []
    else
      var mm := months[|months| - 1];
      var files := SpeedFiles(listing, mm);
      var before := MonthlyOutputs(listing, months[..|months| - 1], read, width);
      if files == [] then before
      else before + [Output(MonthlyName(mm), FilesStats(files, read, width))]
  }

  /** The monthly pass. Its files all carry `windspeed`, so reading them
      never raises. */
  method MonthlyPass(listing: seq<string>, months: seq<nat>, read: string -> Series, width: nat)
    returns (written: seq<Output>)
    requires Gridded(read, width)
    ensures written == MonthlyOutputs(listing, months, read, width)
  {
    written := [];
    for i := 0 to |months|
      invariant written == MonthlyOutputs(listing, months[..i], read, width)
    {
      var mm := months[i];
      assert months[..i + 1][..i] == months[..i];
      var speedFiles := SpeedFiles(listing, mm);
      var wsList, missing := ReadAll(speedFiles, SpeedTag, read);
      if wsList != [] {
        FieldsOn(speedFiles, read, width);
        var wsAll := Flatten(wsList);
        var wsStats := AllStats(wsAll, width);
        written := written + [Output(MonthlyName(mm), wsStats)];
      }
    }
    assert months[..|months|] == months;
  }

  /** Every dataset the monthly pass writes holds exactly the statistic
      keys, and is named after a month that has speed files; no month
      without files is written. */
  lemma {:induction false} MonthlyOutputsNamed(listing: seq<string>, months: seq<nat>, read: string -> Series,
                                               width: nat, k: nat)
    requires Gridded(read, width) && k < |MonthlyOutputs(listing, months, read, width)|
    ensures var o := MonthlyOutputs(listing, months, read, width)[k];
            o.stats.Keys == AllStatKeys &&
            exists i :: 0 <= i < |months| && o.name == MonthlyName(months[i]) && SpeedFiles(listing, months[i]) != []
  {
    var init, last := months[..|months| - 1], months[|months| - 1];
    var before := MonthlyOutputs(listing, init, read, width);
    var r := MonthlyOutputs(listing, months, read, width);
    if k < |before| {
      assert r[k] == before[k];
      MonthlyOutputsNamed(listing, init, read, width, k);
      var i :| 0 <= i < |init| && before[k].name == MonthlyName(init[i]) && SpeedFiles(listing, init[i]) != [];
      assert init[i] == months[i];
    } else {
      var files := SpeedFiles(listing, last);
      assert files != [];
      assert r[k] == Output(MonthlyName(last), FilesStats(files, read, width));
      assert r[k].name == MonthlyName(months[|months| - 1]);
    }
  }

  /** A monthly name says which month it holds. */
  lemma MonthlyNameInjective(m1: nat, m2: nat)
    requires m1 < 100 && m2 < 100 && MonthlyName(m1) == MonthlyName(m2)
    ensures m1 == m2
  {
    TwoDigits(m1);
    TwoDigits(m2);
    var p := "1990-2020_monthly_windspeed_m";
    assert ZeroPad(m1, 2) == MonthlyName(m1)[|p|..|p| + 2];
    assert ZeroPad(m2, 2) == MonthlyName(m2)[|p|..|p| + 2];
    ZeroPadInjective(m1, m2, 2);
  }

  /** The files a season's statistics read: as written, every name of the
      season's months; with `speedOnly`, the corrected selection, only the
      names among them that carry `windspeed`. */
  function SeasonFilesOf(listing: seq<string>, s: Season, speedOnly: bool): seq<string>
  {
    var all := SeasonFileList(listing, SeasonMonths(s));
    if speedOnly then SpeedOnly(all) else all
  }

  /** How far the seasonal pass gets: the statistics of each season done,
      in table order, and whether it stopped with KeyError. */
  datatype SeasonalRun = SeasonalRun(computed: seq<(Season, map<StatKey, Frame>)>, keyError: bool)

  /** The seasonal pass over `seasons`, up to the statistics. A season with
      a file lacking the wind speed variable raises, and no later season
      runs; a season without files computes nothing. */
  function SeasonalStats(listing: seq<string>, seasons: seq<Season>, speedOnly: bool, read: string -> Series,
                         width: nat): (r: SeasonalRun)
    requires Gridded(read, width)
    ensures |r.computed| <= |seasons|
  {
    if seasons == [] then SeasonalRun([], false)
    else
      var s := seasons[|seasons| - 1];
      var files := SeasonFilesOf(listing, s, speedOnly);
      var before := SeasonalStats(listing, seasons[..|seasons| - 1], speedOnly, read, width);
      if before.keyError then before
      else if FirstMissing(files, SpeedTag).Some? then before.(keyError := true)
      else if files == [] then before
      else before.(computed := before.computed + [(s, FilesStats(files, read, width))])
  }

  /** Once a prefix of the seasons has raised, the rest change nothing. */
  lemma {:induction false} StopsAfter(listing: seq<string>, seasons: seq<Season>, k: nat, speedOnly: bool,
                                      read: string -> Series, width: nat)
    requires Gridded(read, width) && k <= |seasons|
    requires SeasonalStats(listing, seasons[..k], speedOnly, read, width).keyError
    ensures SeasonalStats(listing, seasons, speedOnly, read, width)
         == SeasonalStats(listing, seasons[..k], speedOnly, read, width)
    decreases |seasons| - k
  {
    if k < |seasons| {
      var init := seasons[..|seasons| - 1];
      assert init[..k] == seasons[..k];
      StopsAfter(listing, init, k, speedOnly, read, width);
    } else {
      assert seasons[..k] == seasons;
    }
  }

  /** A season's step of the seasonal pass, after the seasons before it,
      which did not raise. */
  lemma SeasonalSnoc(listing: seq<string>, seasons: seq<Season>, k: nat, speedOnly: bool,
                     read: string -> Series, width: nat)
    requires Gridded(read, width) && k < |seasons|
    requires !SeasonalStats(listing, seasons[..k], speedOnly, read, width).keyError
    ensures var before := SeasonalStats(listing, seasons[..k], speedOnly, read, width);
            var files := SeasonFilesOf(listing, seasons[k], speedOnly);
            SeasonalStats(listing, seasons[..k + 1], speedOnly, read, width)
            == if FirstMissing(files, SpeedTag).Some? then before.(keyError := true)
               else if files == [] then before
               else before.(computed := before.computed + [(seasons[k], FilesStats(files, read, width))])
  {
    assert seasons[..k + 1][..k] == seasons[..k];
  }

  /** One season of the loop: list its files, read them, and reduce them
      when there are any. */
  method SeasonOnce(listing: seq<string>, season: Season, speedOnly: bool, read: string -> Series, width: nat)
    returns (keyError: bool, stats: Option<map<StatKey, Frame>>)
    requires Gridded(read, width)
    ensures var files := SeasonFilesOf(listing, season, speedOnly);
            && keyError == FirstMissing(files, SpeedTag).Some?
            && (!keyError ==> (stats.None? <==> files == []))
            && (!keyError && stats.Some? ==> stats.value == FilesStats(files, read, width))
  {
    var seasonFiles := SeasonFiles(listing, SeasonMonths(season));
    if speedOnly {
      seasonFiles := SpeedOnly(seasonFiles);
    }
    var wsList, missing := ReadAll(seasonFiles, SpeedTag, read);
    if missing.Some? {
      return true, None;
    }
    if wsList == [] {
      return false, None;
    }
    FieldsOn(seasonFiles, read, width);
    var wsAll := Flatten(wsList);
    var wsStats := AllStats(wsAll, width);
    return false, Some(wsStats);
  }

  /** The seasonal loop; `speedOnly` selects the corrected file lists. */
  method SeasonalPass(listing: seq<string>, speedOnly: bool, read: string -> Series, width: nat)
    returns (computed: seq<(Season, map<StatKey, Frame>)>, keyError: bool)
    requires Gridded(read, width)
    ensures SeasonalRun(computed, keyError) == SeasonalStats(listing, SeasonOrder, speedOnly, read, width)
  {
    computed, keyError := [], false;
    for i := 0 to |SeasonOrder|
      invariant SeasonalRun(computed, false) == SeasonalStats(listing, SeasonOrder[..i], speedOnly, read, width)
    {
      var season := SeasonOrder[i];
      SeasonalSnoc(listing, SeasonOrder, i, speedOnly, read, width);
      var raised, stats := SeasonOnce(listing, season, speedOnly, read, width);
      if raised {
        keyError := true;
        StopsAfter(listing, SeasonOrder, i + 1, speedOnly, read, width);
        return;
      }
      if stats.Some? {
        computed := computed + [(season, stats.value)];
      }
    }
    assert SeasonOrder[..|SeasonOrder|] == SeasonOrder;
  }

  /** A season whose files include one without the wind speed variable
      makes the pass raise. */
  lemma {:induction false} FailsAt(listing: seq<string>, seasons: seq<Season>, speedOnly: bool,
                                   read: string -> Series, width: nat, i: nat)
    requires Gridded(read, width) && i < |seasons|
    requires FirstMissing(SeasonFilesOf(listing, seasons[i], speedOnly), SpeedTag).Some?
    ensures SeasonalStats(listing, seasons, speedOnly, read, width).keyError
  {
    if i < |seasons| - 1 {
      var init := seasons[..|seasons| - 1];
      assert init[i] == seasons[i];
      FailsAt(listing, init, speedOnly, read, width, i);
    }
  }

  /** Every season the pass computes has files that all hold the wind
      speed variable, and its statistics are those files' statistics. */
  lemma {:induction false} ComputedRead(listing: seq<string>, seasons: seq<Season>, speedOnly: bool,
                                        read: string -> Series, width: nat)
    requires Gridded(read, width)
    ensures forall e :: e in SeasonalStats(listing, seasons, speedOnly, read, width).computed ==>
              && e.0 in seasons
              && SeasonFilesOf(listing, e.0, speedOnly) != []
              && FirstMissing(SeasonFilesOf(listing, e.0, speedOnly), SpeedTag).None?
              && e.1 == FilesStats(SeasonFilesOf(listing, e.0, speedOnly), read, width)
  {
    if seasons != [] {
      ComputedRead(listing, seasons[..|seasons| - 1], speedOnly, read, width);
    }
  }

  /** As written, a direction product in the listing makes the seasonal
      pass raise KeyError: the season of its month never gets statistics. */
  lemma AsWrittenSeasonalFails(listing: seq<string>, read: string -> Series, width: nat, month: nat, day: nat)
    requires Gridded(read, width) && 1 <= month <= 12
    requires HourlyName(DirTag, month, day) in listing
    ensures var r := SeasonalStats(listing, SeasonOrder, false, read, width);
            r.keyError && forall e :: e in r.computed ==> e.0 != SeasonOf(month)
  {
    var s := SeasonOf(month);
    var f := HourlyName(DirTag, month, day);
    SeasonFilesSelect(listing, s, DirTag, month, day);
    TagSelects(SpeedTag, DirTag, month, day);
    var files := SeasonFilesOf(listing, s, false);
    var j :| 0 <= j < |files| && files[j] == f;
    assert FirstMissing(files, SpeedTag).Some?;
    var i := match s case DJF => 0 case MAM => 1 case JJA => 2 case SON => 3;
    assert SeasonOrder[i] == s;
    FailsAt(listing, SeasonOrder, false, read, width, i);
    ComputedRead(listing, SeasonOrder, false, read, width);
  }

  /** Over hourly products, a season's corrected files are exactly the
      speed products of the season's months. */
  lemma CorrectedSeasonFilesSelect(listing: seq<string>, s: Season, tag: string, month: nat, day: nat)
    requires IsTag(tag) && 1 <= month <= 12
    requires HourlyName(tag, month, day) in listing
    ensures HourlyName(tag, month, day) in SeasonFilesOf(listing, s, true) <==> tag == SpeedTag && SeasonOf(month) == s
  {
    var f := HourlyName(tag, month, day);
    SeasonFilesSelect(listing, s, tag, month, day);
    TagSelects(SpeedTag, tag, month, day);
    if SeasonOf(month) == s {
      FilterMember(SeasonFileList(listing, SeasonMonths(s)), g => Contains(g, SpeedTag), f);
    }
  }

  /** Corrected: with each season's names narrowed to speed products, the
      seasonal pass never raises, and it computes, in table order, exactly
      the seasons that have speed products, each from its own files. */
  lemma {:induction false} CorrectedSeasonalStats(listing: seq<string>, seasons: seq<Season>, read: string -> Series,
                                                  width: nat)
    requires Gridded(read, width)
    ensures var r := SeasonalStats(listing, seasons, true, read, width);
            && !r.keyError
            && (forall e :: e in r.computed ==>
                  e.0 in seasons && e.1 == FilesStats(SeasonFilesOf(listing, e.0, true), read, width))
            && (forall s :: s in seasons ==>
                  (SeasonFilesOf(listing, s, true) != [] <==> exists e :: e in r.computed && e.0 == s))
  {
    ComputedRead(listing, seasons, true, read, width);
    if seasons != [] {
      var init, s := seasons[..|seasons| - 1], seasons[|seasons| - 1];
      CorrectedSeasonalStats(listing, init, read, width);
      var files := SeasonFilesOf(listing, s, true);
      assert FirstMissing(files, SpeedTag).None?;
      var before := SeasonalStats(listing, init, true, read, width);
      var r := SeasonalStats(listing, seasons, true, read, width);
      forall t | t in seasons
        ensures SeasonFilesOf(listing, t, true) != [] <==> exists e :: e in r.computed && e.0 == t
      {
        if t == s && files != [] {
          assert (s, FilesStats(files, read, width)) in r.computed;
        } else if t != s {
          assert t in init;
          if exists e :: e in r.computed && e.0 == t {
            var e :| e in r.computed && e.0 == t;
            assert e in before.computed;
          }
        }
      }
    }
  }
}
