/** wind_month_stats.py: the 30-year statistics of one month of one wind
    variable, written as one dataset.

    The variable name picks the files (`m{MM}` and `windspeed`, or `m{MM}`
    and `winddir`) and the output name; any other name only reports an
    error, so the file list is never bound. The fields of the files are
    concatenated over time and reduced to mean, median, std and five
    quantiles; `squeeze_quantile` strips what a quantile adds to an array
    so that all eight line up in one dataset. Opening a file and taking the
    chosen variable is the `read` parameter. */
module MonthStats {
  import opened Wrappers
  import opened Text
  import opened Seqs
  import opened Reduce
  import opened StatKeys
  import opened Buckets
  import Climatology

  // ---------------------------------------------------------------------
  // Selection

  /** Where the selection of files and output name for a variable ends. */
  datatype Selection = Selection(outputFile: string, windFiles: seq<string>)

  /** The errors the script stops on: a variable that is neither, whose
      file list is then never assigned; and `reset_coords` asked to drop
      a `quantile` coordinate that indexes a `quantile` dimension. */
  datatype StatsError = UnknownVariable | IndexCoordinate

  /** `1990-2020_monthly_{kind}_stats_m{MM}.nc` in the monthly directory. */
  function StatsName(kind: string, month: nat): string
  {
    "1990-2020_monthly_" + kind + "_stats_m" + ZeroPad(month, 2) + ".nc"
  }

  /** The listed names holding `m{MM}` and `tag`. */
  function TaggedFiles(listing: seq<string>, month: nat, tag: string): seq<string>
  {
    Filter(listing, f => Contains(f, MonthPattern(month)) && Contains(f, tag))
  }

  /** The branch on the variable name. */
  function Select(windVar: string, month: nat, listing: seq<string>): (r: Result<Selection, StatsError>)
    ensures r.Ok? <==> windVar == "wind_speed" || windVar == "wind_direction"
    ensures windVar == "wind_speed" ==>
              r.value.outputFile == StatsName("windspeed", month)
              && (forall f :: f in r.value.windFiles ==> Contains(f, MonthPattern(month)) && Contains(f, SpeedTag))
    ensures windVar == "wind_direction" ==>
              r.value.outputFile == StatsName("winddirection", month)
              && (forall f :: f in r.value.windFiles ==> Contains(f, MonthPattern(month)) && Contains(f, DirTag))
  {
    if windVar == "wind_speed" then
      Ok(Selection(StatsName("windspeed", month), TaggedFiles(listing, month, SpeedTag)))
    else if windVar == "wind_direction" then
      Ok(Selection(StatsName("winddirection", month), TaggedFiles(listing, month, DirTag)))
    else Err(UnknownVariable)
  }

  /** Over hourly products, the files chosen for a variable are exactly
      that month's products of that variable. */
  lemma SelectPicksVariable(windVar: string, mm: nat, listing: seq<string>, tag: string, month: nat, day: nat)
    requires windVar == "wind_speed" || windVar == "wind_direction"
    requires IsTag(tag) && 1 <= mm <= 12 && 1 <= month <= 12
    requires HourlyName(tag, month, day) in listing
    ensures var want := if windVar == "wind_speed" then SpeedTag else DirTag;
            HourlyName(tag, month, day) in Select(windVar, mm, listing).value.windFiles
            <==> tag == want && month == mm
  {
    var want := if windVar == "wind_speed" then SpeedTag else DirTag;
    var f := HourlyName(tag, month, day);
    MonthPatternSelects(tag, mm, month, day);
    TagSelects(want, tag, month, day);
    Climatology.FilterMember(listing, g => Contains(g, MonthPattern(mm)) && Contains(g, want), f);
  }

  /** The speed and direction outputs have different names, and each name
      says its month. */
  lemma StatsNamesDistinct(k1: string, m1: nat, k2: string, m2: nat)
    requires k1 in {"windspeed", "winddirection"} && k2 in {"windspeed", "winddirection"}
    requires m1 < 100 && m2 < 100 && StatsName(k1, m1) == StatsName(k2, m2)
    ensures k1 == k2 && m1 == m2
  {
    TwoDigits(m1);
    TwoDigits(m2);
    var a, b := StatsName(k1, m1), StatsName(k2, m2);
    var p := "1990-2020_monthly_";
    assert a[|p| + 5] == k1[5] && b[|p| + 5] == k2[5];
    assert k1 == k2;
    assert a[|p| + |k1| + 8..|p| + |k1| + 10] == ZeroPad(m1, 2);
    assert b[|p| + |k1| + 8..|p| + |k1| + 10] == ZeroPad(m2, 2);
    ZeroPadInjective(m1, m2, 2);
  }

  // ---------------------------------------------------------------------
  // Arrays and squeeze_quantile

  /** A named dimension and its length. */
  datatype Dim = Dim(name: string, size: nat)

  /** An array: its dimensions in order, the names of its coordinates, and
      its values with the dimensions flattened. */
  datatype DataArray = DataArray(dims: seq<Dim>, coords: set<string>, values: Frame)

  const QuantileDim := "quantile"

  predicate HasDim(dims: seq<Dim>, name: string)
  {
    exists i :: 0 <= i < |dims| && dims[i].name == name
  }

  /** `da.sizes[name]`, the length of the first dimension of that name. */
  function SizeOf(dims: seq<Dim>, name: string): nat
  {
    if dims == [] then 0
    else if dims[0].name == name then dims[0].size
    else SizeOf(dims[1..], name)
  }

  /** The dimensions without those of a name. */
  function DropDim(dims: seq<Dim>, name: string): (r: seq<Dim>)
    ensures forall i :: 0 <= i < |r| ==> r[i].name != name
  {
    Filter(dims, (d: Dim) => d.name != name)
  }

  /** A `quantile` dimension whose length is not 1: it survives the
      squeeze, and a `quantile` coordinate on it is its index. */
  predicate LongQuantileDim(dims: seq<Dim>)
  {
    HasDim(dims, QuantileDim) && SizeOf(dims, QuantileDim) != 1
  }

  /** `squeeze_quantile`: a `quantile` dimension of length 1 is squeezed
      away (its values are already flat, so they stay as they are), and a
      `quantile` coordinate is dropped; dropping it raises when it indexes
      a `quantile` dimension that was not squeezed. */
  function SqueezeQuantile(da: DataArray): (r: Result<DataArray, StatsError>)
    ensures r.Err? <==> LongQuantileDim(da.dims) && QuantileDim in da.coords
    ensures r.Err? ==> r.error == IndexCoordinate
    ensures r.Ok? ==> && QuantileDim !in r.value.coords
                      && r.value.values == da.values
                      && r.value.coords == da.coords - {QuantileDim}
    ensures r.Ok? && HasDim(da.dims, QuantileDim) && SizeOf(da.dims, QuantileDim) == 1 ==>
              !HasDim(r.value.dims, QuantileDim)
    ensures r.Ok? && !(HasDim(da.dims, QuantileDim) && SizeOf(da.dims, QuantileDim) == 1) ==> r.value.dims == da.dims
  {
    var squeezed :=
      if HasDim(da.dims, QuantileDim) && SizeOf(da.dims, QuantileDim) == 1
      then DataArray(DropDim(da.dims, QuantileDim), da.coords, da.values)
      else da;
    if QuantileDim in squeezed.coords then
      if HasDim(squeezed.dims, QuantileDim) then Err(IndexCoordinate)
      else Ok(DataArray(squeezed.dims, squeezed.coords - {QuantileDim}, squeezed.values))
    else Ok(squeezed)
  }

  /** Squeezing an array the first squeeze accepted changes nothing the
      second time. */
  lemma SqueezeIdempotent(da: DataArray)
    ensures var r := SqueezeQuantile(da);
            r.Ok? ==> SqueezeQuantile(r.value) == r
  {
    var r := SqueezeQuantile(da);
    if r.Ok? && HasDim(da.dims, QuantileDim) && SizeOf(da.dims, QuantileDim) == 1 {
      assert !HasDim(r.value.dims, QuantileDim);
    }
  }

  /** An array with no quantile dimension or coordinate comes back as it
      went in. */
  lemma SqueezeLeavesOthers(da: DataArray)
    requires !HasDim(da.dims, QuantileDim) && QuantileDim !in da.coords
    ensures SqueezeQuantile(da) == Ok(da)
  {
  }

  /** The grid the fields lie on: its dimensions and coordinates. */
  datatype Grid = Grid(dims: seq<Dim>, coords: set<string>)

  predicate PlainGrid(g: Grid)
  {
    QuantileDim !in g.coords && forall i :: 0 <= i < |g.dims| ==> g.dims[i].name != QuantileDim
  }

  /** A reduction over time on the grid (`mean`, `median`, `std`). */
  function Reduced(g: Grid, values: Frame): DataArray
  {
    DataArray(g.dims, g.coords, values)
  }

  /** `quantile(q, dim="time")` with one `q`: the grid, plus the scalar
      coordinate `quantile`. */
  function QuantileOf(g: Grid, values: Frame): DataArray
  {
    DataArray(g.dims, g.coords + {QuantileDim}, values)
  }

  /** Squeezing a quantile gives an array laid out as a mean is, which is
      what lets them share a dataset. */
  lemma SqueezedQuantileAligns(g: Grid, values: Frame)
    requires PlainGrid(g)
    ensures SqueezeQuantile(QuantileOf(g, values)) == Ok(Reduced(g, values))
  {
    var q := QuantileOf(g, values);
    assert !HasDim(q.dims, QuantileDim);
    assert (g.coords + {QuantileDim}) - {QuantileDim} == g.coords;
  }

  // ---------------------------------------------------------------------
  // The dataset

  /** The dataset the script builds from the concatenated field: the
      mean, median and std as they come, and the five quantiles through
      `squeeze_quantile`, the first of which stops the script if it
      raises. */
  function StatsDataset(g: Grid, da: Series, width: nat): (r: Result<map<StatKey, DataArray>, StatsError>)
    requires Rectangular(da, width)
  {
    var s := Climatology.Stats(da, width);
    var p10, p25 := SqueezeQuantile(QuantileOf(g, s[P10])), SqueezeQuantile(QuantileOf(g, s[P25]));
    var p75, p90 := SqueezeQuantile(QuantileOf(g, s[P75])), SqueezeQuantile(QuantileOf(g, s[P90]));
    var p95 := SqueezeQuantile(QuantileOf(g, s[P95]));
    if p10.Err? || p25.Err? || p75.Err? || p90.Err? || p95.Err? then Err(IndexCoordinate)
    else
      Ok(map[Mean := Reduced(g, s[Mean]), Median := Reduced(g, s[Median]), Std := Reduced(g, s[Std]),
             P10 := p10.value, P25 := p25.value, P75 := p75.value, P90 := p90.value, P95 := p95.value])
  }

  /** On a grid with a `quantile` dimension that is not of length 1, the
      first quantile's squeeze raises; on any other grid the dataset is
      built. */
  lemma DatasetFails(g: Grid, da: Series, width: nat)
    requires Rectangular(da, width)
    ensures var r := StatsDataset(g, da, width);
            (r.Err? <==> LongQuantileDim(g.dims)) && (r.Err? ==> r.error == IndexCoordinate)
  {
    var s := Climatology.Stats(da, width);
    var q := QuantileOf(g, s[P10]);
    assert QuantileDim in q.coords && q.dims == g.dims;
    if !LongQuantileDim(g.dims) {
      forall k | k in {P25, P75, P90, P95}
        ensures SqueezeQuantile(QuantileOf(g, s[k])).Ok?
      {
        assert QuantileOf(g, s[k]).dims == g.dims;
      }
    }
  }

  /** The dataset holds the statistics `all_stats` holds, each with the
      values `all_stats` computes, all laid out on the grid alone. */
  lemma DatasetMatchesAllStats(g: Grid, da: Series, width: nat)
    requires Rectangular(da, width) && PlainGrid(g)
    ensures var r := StatsDataset(g, da, width);
            && r.Ok?
            && r.value.Keys == Climatology.AllStatKeys
            && forall k :: k in r.value ==> r.value[k] == Reduced(g, Climatology.Stats(da, width)[k])
  {
    var s := Climatology.Stats(da, width);
    SqueezedQuantileAligns(g, s[P10]);
    SqueezedQuantileAligns(g, s[P25]);
    SqueezedQuantileAligns(g, s[P75]);
    SqueezedQuantileAligns(g, s[P90]);
    SqueezedQuantileAligns(g, s[P95]);
  }

  // ---------------------------------------------------------------------
  // The script

  /** What the script writes: the output name and the dataset. */
  datatype Written = Written(name: string, dataset: map<StatKey, DataArray>)

  ghost predicate Gridded(read: string -> Series, width: nat)
  {
    forall f :: Rectangular(read(f), width)
  }

  /** The tag of a variable's products. */
  function TagOf(windVar: string): string
  {
    if windVar == "wind_speed" then SpeedTag else DirTag
  }

  /** The script: an unknown variable stops it; otherwise it writes one
      dataset when the month has files and nothing when it has none. */
  function MonthStatsOutcome(windVar: string, month: nat, listing: seq<string>, read: string -> Series,
                             g: Grid, width: nat): Result<Option<Written>, StatsError>
    requires Gridded(read, width)
  {
    match Select(windVar, month, listing)
    case Err(e) => Err(e)
    case Ok(sel) =>
      if sel.windFiles == [] then Ok(None)
      else
        Climatology.FieldsOn(sel.windFiles, read, width);
        match StatsDataset(g, Flatten(Climatology.Fields(sel.windFiles, read)), width)
        case Err(e) => Err(e)
        case Ok(ds) => Ok(Some(Written(sel.outputFile, ds)))
  }

  /** The script's steps. Every chosen file carries the variable's tag, so
      reading them never raises. */
  method MonthStatsRun(windVar: string, month: nat, listing: seq<string>, read: string -> Series,
                       g: Grid, width: nat)
    returns (out: Result<Option<Written>, StatsError>)
    requires Gridded(read, width)
    ensures out == MonthStatsOutcome(windVar, month, listing, read, g, width)
  {
    var selection := Select(windVar, month, listing);
    if selection.Err? {
      return Err(UnknownVariable);
    }
    var outputFile, windFiles := selection.value.outputFile, selection.value.windFiles;
    var wsList, missing := Climatology.ReadAll(windFiles, TagOf(windVar), read);
    if wsList == [] {
      return Ok(None);
    }
    Climatology.FieldsOn(windFiles, read, width);
    var wsAll := Flatten(wsList);
    var statsDs := StatsDataset(g, wsAll, width);
    if statsDs.Err? {
      return Err(statsDs.error);
    }
    out := Ok(Some(Written(outputFile, statsDs.value)));
  }

  /** An error exactly for an unknown variable or, when there are files, a
      grid with a long `quantile` dimension; nothing written exactly for a
      month without files; otherwise the variable's output name and the
      eight statistics. */
  lemma OutcomeCases(windVar: string, month: nat, listing: seq<string>, read: string -> Series,
                     g: Grid, width: nat)
    requires Gridded(read, width)
    ensures var out := MonthStatsOutcome(windVar, month, listing, read, g, width);
            var known := windVar == "wind_speed" || windVar == "wind_direction";
            && (out.Err? <==> !known || (Select(windVar, month, listing).value.windFiles != [] && LongQuantileDim(g.dims)))
            && (out.Ok? ==> (out.value.None? <==> Select(windVar, month, listing).value.windFiles == []))
            && (out.Ok? && out.value.Some? ==>
                  out.value.value.name == Select(windVar, month, listing).value.outputFile
                  && out.value.value.dataset.Keys == Climatology.AllStatKeys)
  {
    var sel := Select(windVar, month, listing);
    if sel.Ok? && sel.value.windFiles != [] {
      Climatology.FieldsOn(sel.value.windFiles, read, width);
      var da := Flatten(Climatology.Fields(sel.value.windFiles, read));
      DatasetFails(g, da, width);
      var r := StatsDataset(g, da, width);
      if r.Ok? {
        DatasetKeys(g, da, width);
      }
    }
  }

  /** A built dataset holds exactly the eight statistics. */
  lemma DatasetKeys(g: Grid, da: Series, width: nat)
    requires Rectangular(da, width) && StatsDataset(g, da, width).Ok?
    ensures StatsDataset(g, da, width).value.Keys == Climatology.AllStatKeys
  {
  }
}
