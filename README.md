# CaSR wind climatology — a Dafny model

The repository builds a wind climatology out of the CaSR reanalysis. `main.py`
walks the (month, day) buckets of the months it lists; as written that list is
December only (`main.py:21`). For each bucket it downloads that
calendar day at 12 UTC for every year of the climatology period, runs the
hourly-product script and then clears the downloaded `.nc` files. After that:

- `gen_hrly_winds.py` joins one bucket's downloads into an hourly wind speed product (in km/h) and a wind direction product.
- `gen_means.py` builds the monthly mean speed, wind run and mean direction of one year.
- `gen_windspeed_climatology.py` reduces the hourly speed products to per-month and per-season statistics: mean, median, std and the 10/25/75/90/95th percentiles.
- `wind_month_stats.py` does the same for one month and one variable.
- `utils.py` holds the date lists the downloads use.
- `operational/etl_station_data.py` holds the date, query, percentile and nearest-grid-point helpers of the station pipeline.

The model keeps the scripts' control flow, their file names and selection
patterns, and their skip-if-exists checks. File reads are function parameters.
A data array is a sequence of time steps, and each step is a row of grid cells.
A missing value (NaN) is `None`. The time reductions follow xarray and NumPy with
NaNs skipped:

- the sum of nothing is 0;
- the mean, median and percentiles of nothing are NaN;
- percentiles use linear interpolation.

Module layout:

| file | module | models |
|---|---|---|
| `wrappers.dfy` | `Wrappers` | `Option`, `Result` |
| `text.dfy` | `Text` | decimal formatting, `%02d` padding, substring tests |
| `calendar.dfy` | `Calendar` | proleptic Gregorian dates, `strftime('%Y%m%d')` |
| `seqs.dfy` | `Seqs` | list filters and concatenation |
| `date_lists.dfy` | `DateLists` | `utils.py` |
| `station.dfy` | `StationEtl` | `last_day_of_month`, `set_query`, `mm_dd_pairs`, `pct_from_vals` |
| `nearest.dfy` | `Nearest` | `nearest_points` |
| `reduce.dfy` | `Reduce` | NaN-skipping time reductions |
| `stat_keys.dfy` | `StatKeys` | the statistic names |
| `buckets.dfy` | `Buckets` | the hourly product names |
| `daily_driver.dfy` | `DailyDriver` | `main.py` |
| `hourly.dfy` | `HourlyWinds` | `gen_hrly_winds.py` |
| `monthly_means.dfy` | `MonthlyMeans` | `gen_means.py` |
| `climatology.dfy` | `Climatology` | `gen_windspeed_climatology.py` |
| `month_stats.dfy` | `MonthStats` | `wind_month_stats.py` |

## Model

| member | source | states |
|---|---|---|
| Calendar.DaysInMonthCases | utils.py:35-37 | a month has 29 days exactly when it is February of a leap year, and 28 exactly when it is February of a common year |
| Calendar.NextDayOrdinal | utils.py:15-17 | stepping by one day (`timedelta(days=1)`) advances the day's ordinal by exactly one |
| Calendar.OrdinalOrder | utils.py:15 | comparing dates (`d <= end`) agrees with comparing their ordinals |
| Calendar.OrdinalInjective | utils.py:15-17 | two valid dates with the same ordinal are the same date |
| Calendar.DaysFromLast | utils.py:14-17 | the run of days from `start` whose length is the ordinal distance plus one starts at `start` and ends exactly at `end` |
| Calendar.ParseFormat | utils.py:16 | `strftime('%Y%m%d')` of a valid date is eight characters that read back as that date |
| Calendar.FormatInjective | utils.py:16 | different valid dates give different `%Y%m%d` strings |
| DateLists.DatesInYear | utils.py:9-18 | raises ValueError when the previous year is before year 1 or the year is after 9999; otherwise returns the `%Y%m%d` text of every day from 1 December of the previous year to 30 November, in order |
| DateLists.MeteorologicalYearSpan | utils.py:10-17 | the meteorological year of `year` has 366 days exactly when `year` is a leap year |
| DateLists.MeteorologicalYearShape | utils.py:9-18 | the list starts on 1 December of the previous year and ends on 30 November; each next entry is the next calendar day; all dates are valid and strictly increasing |
| DateLists.LeapDayInMeteorologicalYear | utils.py:10-17 | 29 February is in the list exactly when `year` is a leap year |
| DateLists.MeteorologicalYearText | utils.py:16 | every string is eight digits and reads back as the date at the same position |
| DateLists.DatesAcrossYears | utils.py:20-33 | returns the `%Y%m%d` text of `month/day` for each year from the start to the end year, skipping the years where that date does not exist |
| DateLists.SameDayDatesFacts | utils.py:27-32 | the list has at most one date per year, in ascending years; each is a valid `month/day` in range; a year's date is present exactly when it exists |
| DateLists.SameDayFirst | utils.py:27-32 | when the first year's date exists, the list starts with it |
| DateLists.SameDayLast | utils.py:27-32 | when the last year's date exists, the list ends with it |
| DateLists.SameDayDatesComplete | utils.py:27-30 | for a day that exists in every year (anything but 29 February), the list has one entry per year of the range |
| DateLists.LeapDayAcrossYears | utils.py:28-32 | for 29 February only the leap years of the range are kept |
| DateLists.DaysOfMonth | utils.py:35-37 | the list 1..n where n is the month's length; a month outside 1..12 is an error |
| DateLists.OneToMembers | utils.py:37 | `range(1, n + 1)` holds exactly 1..n, ascending |
| StationEtl.LastDayOfMonth | operational/etl_station_data.py:24-25 | the last day of the month: the day exists and the next one does not; it is 29 exactly in February of a leap year; a month outside 1..12 is an error |
| StationEtl.LastDayIsLastOfList | operational/etl_station_data.py:24-25 | the last day of a month is the last entry of that month's day list |
| StationEtl.SplitJoin | operational/etl_station_data.py:35 | splitting on single quotes undoes joining quote-free pieces with them |
| StationEtl.SetQueryLiterals | operational/etl_station_data.py:28-37 | when no argument holds a quote, the quoted literals of the query are the station id, `start 00:00:00` and `end 23:00:00`, in that order |
| StationEtl.SetQueryInjective | operational/etl_station_data.py:28-37 | with quote-free arguments, equal queries come from equal station ids and dates |
| StationEtl.MmDdPairs | operational/etl_station_data.py:133-170 | raises ValueError when the end is before the start, and OverflowError when the loop would step past 9999-12-31; otherwise returns one (month, day) pair per day of the run that starts at start and whose last day is end |
| StationEtl.PairsText | operational/etl_station_data.py:163-167 | the string pairs are two characters each and read back as the day's month and day |
| StationEtl.PairsStep | operational/etl_station_data.py:162-168 | consecutive integer pairs are consecutive calendar days |
| StationEtl.PctFromVals | operational/etl_station_data.py:174-181 | with no value left after dropping NaNs, the keys are p10..p90 and all NaN; otherwise the keys are p10..p95 and none is NaN |
| StationEtl.PctFromValsValues | operational/etl_station_data.py:179-181 | with some value present, each pNN is the linear-interpolation percentile of the sorted non-NaN values |
| StationEtl.PctFromValsOrdered | operational/etl_station_data.py:179-181 | with some value present: p10 <= p25 <= p50 <= p75 <= p90 <= p95, and p50 is the median |
| StationEtl.PctFromValsRange | operational/etl_station_data.py:179-181 | every percentile lies between the smallest and the largest present value |
| StationEtl.PctKeysDependOnInput | operational/etl_station_data.py:177-181 | as written, `[nan]` gives a dict without p95 while `[1.0]` gives one with p95 |
| StationEtl.PctFromValsUniform | operational/etl_station_data.py:174-181 | the corrected version: always the six keys p10..p95; all are NaN exactly when no value is present; otherwise it agrees with the as-written dict |
| Nearest.SplitIndex | operational/etl_station_data.py:226 | `divmod(idx, nlon)` gives a row below `nlat` and a column below `nlon` that rebuild `idx` |
| Nearest.Grids | operational/etl_station_data.py:201-209 | mixing 1-D and 2-D coordinates raises ValueError; two 2-D grids of different sizes cannot be stacked and fail; otherwise both grids are 2-D, well shaped and of one size: 2-D latitudes are kept and the longitudes keep their own rows and columns, and 1-D axes become two meshes of one shape |
| Nearest.MeshCells | operational/etl_station_data.py:202 | `meshgrid` cell (i, j) pairs latitude i with longitude j |
| Nearest.GridCells | operational/etl_station_data.py:203-205 | 2-D grids keep their latitudes and move every longitude down by 360 |
| Nearest.Distances | operational/etl_station_data.py:217-218 | the squared distance of every grid point to the target, none negative |
| Nearest.NearestLeftOut | operational/etl_station_data.py:219 | the index of the smallest distance not yet chosen |
| Nearest.SelectNearest | operational/etl_station_data.py:219-220 | `k` distinct indices in order of non-decreasing distance, none farther than any index left out |
| Nearest.Describe | operational/etl_station_data.py:223-233 | fails with IndexError exactly when some selected index, split by the latitude grid's columns, lands outside the longitude grid; otherwise one entry per selected index, in order, each holding the flat index, its (row, column), the latitude and longitude at that cell of each grid, and the squared distance |
| Nearest.SameShapeInRange | operational/etl_station_data.py:223-229 | on grids of one shape every flat index splits into a cell of the longitude grid, so no IndexError |
| Nearest.DescribesSearched | operational/etl_station_data.py:209-229 | on grids of one shape, an entry's latitude and longitude are the stacked point at its flat index, the point whose distance was searched |
| Nearest.SelectionByDistance | operational/etl_station_data.py:234 | the entries of a k-smallest selection are already in distance order |
| Nearest.SortSortedIdentity | operational/etl_station_data.py:234 | the stable sort by distance leaves a list that is in distance order unchanged |
| Nearest.NearestPoints | operational/etl_station_data.py:184-235 | reports the grid errors; asking for more points than the grid has is an error; an IndexError happens only when the grids differ in shape and some of the k nearest indices lands outside the longitude grid; with one shape and k within the grid, returns `k` entries describing the k nearest grid points, nearest first |
| Reduce.ConstantStatistics | gen_windspeed_climatology.py:44-46 | over a non-empty constant series the mean is that constant, the variance is 0 and the sum is the count times the constant |
| Reduce.AllMissing | gen_windspeed_climatology.py:44-46 | over a series with nothing present the sum is 0, and the mean and variance are NaN |
| Reduce.VarianceNonNegative | gen_windspeed_climatology.py:46 | the population variance (`std` before the square root) is never negative |
| Reduce.NanQuantileOrdered | gen_windspeed_climatology.py:51-54 | a lower quantile level never gives a larger quantile |
| Reduce.ConstantQuantile | gen_windspeed_climatology.py:53 | every quantile of a non-empty constant series is that constant |
| Reduce.SortOrderIndependent | gen_windspeed_climatology.py:74 | sorting depends only on the multiset of values, so not on the order of the concatenated parts |
| Reduce.MeanScale | gen_means.py:65 | converting to km/h before the time mean gives the converted mean |
| Reduce.SumOverConcat | gen_means.py:80-91 | the time sum of a concatenation is the sum of the parts' time sums, in either order |
| Reduce.MeanOrderIndependent | gen_means.py:80-90 | the time mean of a concatenation does not depend on the order of the parts |
| Reduce.QuantileOrderIndependent | gen_windspeed_climatology.py:74-76 | the time quantiles of a concatenation do not depend on the order of the parts |
| Reduce.FlattenRectangular | gen_windspeed_climatology.py:74 | concatenating arrays over one grid along time keeps that grid |
| StatKeys.NameInjective | gen_windspeed_climatology.py:44-54 | the statistic names mean, median, std, p10, …, p95 are pairwise distinct |
| Buckets.HourlyNameInjective | gen_hrly_winds.py:40-46 | different (variable, month, day) give different hourly product names |
| Buckets.MonthPatternSelects | gen_windspeed_climatology.py:62 | an hourly product name contains `m{MM}` exactly when it is that month's product |
| Buckets.TagSelects | gen_windspeed_climatology.py:63 | an hourly product name contains `windspeed` exactly when it is a speed product |
| DailyDriver.BucketDaysFromUtils | main.py:26-27 | the days of a bucket's month are `get_days_in_month(2019, month)` |
| DailyDriver.NoLeapDayBucket | main.py:26-27 | 29 is a bucket day of every month but February, and each month has its common-year length, so no bucket is made for 29 February |
| DailyDriver.DecemberLabelMatchesData | main.py:19-20 | December products are labelled 1989-2019, and the dates fetched for a December day run from 1989 to 2019 |
| DailyDriver.CleanupFacts | main.py:50-69 | cleanup removes every `.nc` file that can be removed, keeps every other file and every locked file, and logs exactly the removals |
| DailyDriver.CleanupIdempotent | main.py:50-69 | cleaning a cleaned directory removes nothing more |
| DailyDriver.CleanupAgainFails | main.py:58-65 | a second cleanup of what is left removes nothing: each of its steps is a failed removal |
| DailyDriver.DownloadsAreNc | main.py:52-53 | every download name ends in `.nc`, so cleanup removes it |
| DailyDriver.CleanupGeneratesNothing | main.py:50-69 | cleanup never processes a bucket |
| DailyDriver.DayGenerated | main.py:40-48 | a day processes its bucket exactly when the bucket is not already saved |
| DailyDriver.Workspace.CleanTemp | main.py:50-69 | the loop leaves the remaining listing, appends the cleanup steps to the log, and leaves only locked `.nc` files |
| DailyDriver.Workspace.RunDay | main.py:28-69 | one (month, day): the skip check, the downloads of each year where the date exists, the hourly run, then the cleanup |
| DailyDriver.Workspace.RunMonth | main.py:26-71 | the log gains exactly the steps of the month's day loop and the temp listing is what that loop leaves; the processed buckets are the month's unsaved days, in order; no unlocked `.nc` file is left |
| DailyDriver.Workspace.Run | main.py:19-73 | the log gains exactly the steps of the month loop and the temp listing is what it leaves; the processed buckets are exactly the unsaved ones, in order; no unlocked `.nc` file is left |
| DailyDriver.DayEffectWork | main.py:28-69 | one day processes its bucket and downloads that day's dates exactly when the bucket is not saved; cleanup adds neither |
| DailyDriver.DaysEffectWork | main.py:26-71 | over a month's days, the processed buckets are the unsaved days in order, and the downloads are their date lists, one per processed bucket |
| DailyDriver.RunWork | main.py:19-73 | over the months, the processed buckets are exactly the unsaved ones in order, and the downloads are exactly their date lists, in the same order |
| HourlyWinds.GenHourly | gen_hrly_winds.py:31-86 | counts the day files, and either skips, or writes the concatenated km/h speeds and directions, or fails with unbound names when no day file exists |
| HourlyWinds.AccumulateStep | gen_hrly_winds.py:63-70 | one more day file extends the accumulated speeds and directions by its own values |
| HourlyWinds.ScaleFlatten | gen_hrly_winds.py:56-70 | converting each day to km/h and concatenating equals concatenating and then converting |
| HourlyWinds.WrittenProducts | gen_hrly_winds.py:78-86 | a written speed product is 1.852 times the knots of every day file in listing order; the direction product is every day's direction |
| HourlyWinds.HourlyCases | gen_hrly_winds.py:34-86 | the names are unbound exactly when no day file matches; otherwise the script skips exactly when both products exist and writes them otherwise |
| HourlyWinds.DownloadSelected | gen_hrly_winds.py:34 | a download's name holds the `{MM}{DD}12.nc` key exactly when it is that month and day |
| HourlyWinds.DownloadLayout | gen_hrly_winds.py:34 | a download name is eight date digits, `12`, then `.nc`, and `.` occurs only once |
| HourlyWinds.DayFilesOfDownloads | gen_hrly_winds.py:34 | over any set of downloads, the day files are exactly that day's downloads |
| MonthlyMeans.MonthMean | gen_means.py:30-32 | the concatenation holds the first array's steps and then the second's |
| MonthlyMeans.MonthFilesComplete | gen_means.py:49 | every download of a date in the year and month is selected by the `{year}{MM}` pattern |
| MonthlyMeans.MonthStep | gen_means.py:36-99 | one month: skipped when its name exists; BadTimestamp when there are more files than days; otherwise appends the three reductions. With no files, the as-written version reuses the previous month's arrays, or fails when there are none |
| MonthlyMeans.AccumulateMonth | gen_means.py:51-87 | fails exactly when the day counter passes the month's length; otherwise the accumulators are the concatenation of every file's km/h speed, raw speed and direction, and are unchanged when there is no file |
| MonthlyMeans.GenMeans | gen_means.py:36-99 | the products and error of the script's month loop are those of `MeansRun` |
| MonthlyMeans.ErrorStays | gen_means.py:53-57 | once a month fails, the later months change nothing |
| MonthlyMeans.MonthAccFacts | gen_means.py:64-68 | the accumulated speed is 1.852 times the accumulated run, which stays in knots; all three have one step per file step |
| MonthlyMeans.ReductionsFacts | gen_means.py:90-92 | per cell, the speed product is 1.852 times the mean knots, the wind run is the NaN-skipping sum of knots, and the direction is the NaN-skipping mean |
| MonthlyMeans.SkipNameNeverWritten | gen_means.py:37-44 | the `{year}_{MM}_month_mean.nc` name checked for the skip is never one of the three names written |
| MonthlyMeans.NoSkipNameWritten | gen_means.py:42-44 | no run ever writes a name that the skip check looks for |
| MonthlyMeans.AsWrittenIgnoresProducts | gen_means.py:42-46 | as written, adding the script's own outputs to the saved names does not change which months are skipped |
| MonthlyMeans.AsWrittenRerunRepeats | gen_means.py:42-99 | as written, a rerun after a complete first run recomputes and rewrites every month |
| MonthlyMeans.CorrectedRerunWritesNothing | gen_means.py:42-99 | with the skip checking the names the script writes, a rerun after a complete run writes nothing |
| MonthlyMeans.StepProducts | gen_means.py:97-99 | a month only appends products, and those are the three names of that month |
| MonthlyMeans.AsWrittenEmptyMonthRepeats | gen_means.py:49-92 | as written, a month with no files after a month with files writes the same three arrays again under its own names |
| MonthlyMeans.AsWrittenFirstEmptyMonthFails | gen_means.py:53-90 | as written, a first month with no files fails on the unbound accumulators |
| MonthlyMeans.CorrectedUsesOwnFiles | gen_means.py:49-92 | the corrected run's products are exactly each processed month's own reductions |
| Climatology.SeasonOf | gen_windspeed_climatology.py:25-30 | every month 1..12 lies in its season's month list |
| Climatology.SeasonsPartition | gen_windspeed_climatology.py:25-30 | a month belongs to a season exactly when that season is its own, so the four seasons split the year |
| Climatology.SpeedFilesSelect | gen_windspeed_climatology.py:62-63 | an hourly product is picked for month `mm` exactly when it is a speed product of that month |
| Climatology.SeasonFiles | gen_windspeed_climatology.py:99-101 | the extend loop lists the `m{MM}` files of each month of the season, in the season's month order |
| Climatology.SeasonFilesSelect | gen_windspeed_climatology.py:99-101 | an hourly product of either variable is in a season's file list exactly when its month is in that season |
| Climatology.QuantilesIncreasing | gen_windspeed_climatology.py:51 | the quantile levels run from 0.1 to 0.95, strictly increasing, under distinct names |
| Climatology.AllStats | gen_windspeed_climatology.py:40-56 | the dataset holds exactly mean, median, std, p10, p25, p75, p90 and p95, each the time reduction it names |
| Climatology.StatCell | gen_windspeed_climatology.py:44-54 | each statistic's cell is its reduction of that cell's time series |
| Climatology.StatsOrdered | gen_windspeed_climatology.py:44-54 | in each cell every statistic is NaN exactly when nothing is present; otherwise p10 <= p25 <= median <= p75 <= p90 <= p95 |
| Climatology.FirstMissing | gen_windspeed_climatology.py:104-108 | nothing exactly when every file carries the variable's tag; otherwise the first file without it |
| Climatology.ReadAll | gen_windspeed_climatology.py:104-109 | stops with KeyError at the first file that lacks the variable, exactly when there is one; otherwise the list holds each file's field, in file order |
| Climatology.MonthlyPass | gen_windspeed_climatology.py:59-90 | for each month with speed files, writes that month's statistics; a month without them writes nothing |
| Climatology.MonthlyOutputsNamed | gen_windspeed_climatology.py:73-90 | every written dataset has the eight statistic keys and is named after a requested month that has speed files |
| Climatology.MonthlyNameInjective | gen_windspeed_climatology.py:85 | different months give different monthly output names |
| Climatology.SeasonalPass | gen_windspeed_climatology.py:96-114 | the season loop, in DJF, MAM, JJA, SON order, ends as the seasonal fold does: the statistics of each season with files so far, and whether a season raised KeyError, after which nothing more is computed |
| Climatology.SeasonOnce | gen_windspeed_climatology.py:97-114 | one season raises KeyError exactly when one of its files lacks the wind speed variable; otherwise it computes nothing exactly when it has no file, and else the statistics of its files |
| Climatology.StopsAfter | gen_windspeed_climatology.py:96-109 | once a season has raised, the later seasons change nothing |
| Climatology.FailsAt | gen_windspeed_climatology.py:104-108 | a season with a file that lacks the wind speed variable makes the pass raise |
| Climatology.ComputedRead | gen_windspeed_climatology.py:96-114 | every computed season is a requested one whose files are non-empty and all hold the wind speed variable, and its statistics are those files' statistics |
| Climatology.AsWrittenSeasonalFails | gen_windspeed_climatology.py:99-108 | as written, a wind direction product in the listing makes the pass raise KeyError, and the season of that product is never computed |
| Climatology.CorrectedSeasonFilesSelect | gen_windspeed_climatology.py:99-101 | corrected: an hourly product is in a season's narrowed list exactly when it is a wind speed product of a month of that season |
| Climatology.CorrectedSeasonalStats | gen_windspeed_climatology.py:96-114 | corrected: the pass never raises; each computed season is a requested one with the statistics of its speed files, and a season is computed exactly when it has speed files |
| MonthStats.Select | wind_month_stats.py:18-25 | `wind_speed` and `wind_direction` pick their output name and their `m{MM}`-and-tag files; any other variable is an error |
| MonthStats.SelectPicksVariable | wind_month_stats.py:20-23 | an hourly product is selected exactly when it is of the requested month and variable |
| MonthStats.StatsNamesDistinct | wind_month_stats.py:19-22 | different variables or months give different output names |
| MonthStats.SqueezeQuantile | wind_month_stats.py:32-40 | fails (dropping an index coordinate) exactly when a quantile dimension of size other than 1 is left and the quantile coordinate is present; otherwise drops the quantile coordinate and keeps the values and every other coordinate, removes a size-1 quantile dimension and keeps the dimensions otherwise |
| MonthStats.SqueezeIdempotent | wind_month_stats.py:32-40 | squeezing a successfully squeezed array again gives the same array |
| MonthStats.SqueezeLeavesOthers | wind_month_stats.py:32-40 | an array with no quantile dimension or coordinate is returned unchanged, without error |
| MonthStats.SqueezedQuantileAligns | wind_month_stats.py:59-63 | a single quantile squeezes without error to the grid of the mean, median and std |
| MonthStats.DatasetFails | wind_month_stats.py:55-74 | building the dataset fails, with the coordinate error, exactly when the grid carries a quantile dimension of size other than 1 |
| MonthStats.DatasetMatchesAllStats | wind_month_stats.py:55-74 | on a plain grid the dataset is built; it has the eight statistic keys, and each entry is the matching time statistic on that grid |
| MonthStats.MonthStatsRun | wind_month_stats.py:43-85 | reads the selected files, each of which carries the variable, and when there is any file builds the statistics dataset and writes it under the output name, or returns the squeeze error; the outcome is that of `MonthStatsOutcome` |
| MonthStats.OutcomeCases | wind_month_stats.py:18-85 | an error exactly for an unknown variable, or for selected files on a grid with a quantile dimension of size other than 1; nothing written exactly when no file is selected; otherwise a dataset with the eight keys under the selected name |

## Left out

- File and network I/O, the thread pool, the database and `print` are left out. Dataset opening is a function parameter (`read`). The download is an abstract step in the `DailyDriver` log.
- `DailyDriver.Workspace.RunDay`: `main.py:12` imports `gen_hrly_files`, which `gen_hrly_winds.py` does not define. As written, that import first runs `gen_hrly_winds.py`'s own script for 18 February and then raises ImportError, so `main.py` stops before its first download. The model takes the call as the processing step it intends, so it does not add the hourly products to the saved set.
- `DailyDriver.Workspace.Run`, `HourlyWinds.GenHourly`, `MonthlyMeans.GenMeans`, `Climatology.MonthlyPass` and `MonthStats.MonthStatsRun`: the script constants take these fixed values in the source, and the model makes them parameters so that every value is covered:
  - `months = [12]` in `main.py`;
  - month 2 and day 18 in `gen_hrly_winds.py`;
  - months `[3, 4]` in `gen_windspeed_climatology.py`;
  - the month and variable in `wind_month_stats.py`.

  The fixed values are kept as constants (`ClimMonths`, `MeansYear`, …).
- `Climatology.SeasonalPass`: stops at the statistics. The seasonal file name at `gen_windspeed_climatology.py:118` formats a string with `:02d`, which Python rejects, so the written seasonal file is not modelled. As written, that line raises ValueError right after the first season whose statistics are computed, so the later seasons never run; the model's pass goes on to them.
- `Reduce`: `std` is modelled as the population variance, without the square root. The statistics are real numbers, with no floating point and no int16 packing on write.
- `Nearest.NearestPoints` stores squared distances rather than `sqrt`, which does not change the order. It requires `k >= 1`. The tie order between equal distances of SciPy's k-d tree is not modelled; the model uses the fallback selection order.
- `Nearest.NearestPoints`: coordinates arrive as arrays of known shape. The array conversion `to_numpy` is not modelled.
- `StationEtl.MmDdPairs`: takes dates, not strings. `strptime` parsing with a format is not modelled.
- `Calendar.ParseFormat`: `Format` pads every year to four digits. Python's `%Y` on Linux does not pad years below 1000; the scripts only format years 1989-2020.
- `MonthlyMeans.MonthFilesComplete`: proves only that every download of the month is selected. The `{year}{MM}` pattern can also match a download of another month (the name `2010121212.nc` holds `101212`), so the converse does not hold and is not stated.
- `MonthlyMeans.MonthStep`: `pd.Timestamp` is modelled only as rejecting a day past the month's end. Its year range is not modelled.
- `MonthlyMeans.ReductionsFacts`: the wind run product sums knots, because the source copies the speed without converting ("just copy for now"). The model keeps that.
- `Climatology.FirstMissing` and `MonthStats.MonthStatsRun`: a file is taken to hold a variable exactly when its name carries that variable's tag (`windspeed` or `winddir`). File contents are not modelled beyond that.
- All reductions assume that every field read has the same grid width (`Gridded`). A mismatch makes xarray raise, and that error is not modelled.
- `MonthStats.Select`: an unknown variable is modelled as an error. The source prints a message and then fails on the unbound `wind_files`.
- `utils.py`'s printing and `main.py`'s progress messages are not modelled.

## Findings

| source | as written | input that shows it | evidently intended | confidence | as-written member | corrected member |
|---|---|---|---|---|---|---|
| operational/etl_station_data.py:177-181 | the all-NaN dict has keys p10..p90 only, while the other branch adds p95 | `pct_from_vals([nan])` has no `p95` | the same six keys in both branches, NaN when nothing is present | not executed | StationEtl.PctKeysDependOnInput | StationEtl.PctFromValsUniform |
| gen_means.py:37-44 | the skip checks `{year}_{MM}_month_mean.nc`, but the script writes `wind_speed_monthly_{year}-{MM}.h5` and two siblings, so the skip never fires | a second run after a complete run of 1990 recomputes all twelve months | skip a month whose products already exist | not executed | MonthlyMeans.AsWrittenRerunRepeats | MonthlyMeans.CorrectedRerunWritesNothing |
| gen_means.py:49-92 | with no file for a month, the loop body never runs; the reductions then reuse the previous month's arrays, or fail on unbound names in the first month | months `[1, 2]` with files only for January write January's means again as February's | a month without files writes nothing | not executed | MonthlyMeans.AsWrittenEmptyMonthRepeats | MonthlyMeans.CorrectedUsesOwnFiles |
| gen_windspeed_climatology.py:99-108 | the season's list keeps every `m{MM}` file, wind direction products included, and line 108 then reads the wind speed variable from each, which a direction product lacks | a listing that holds the December 1 direction product: the DJF season raises KeyError and the pass stops | narrow the list to `windspeed` files, as the monthly pass does at line 63 | not executed | Climatology.AsWrittenSeasonalFails | Climatology.CorrectedSeasonalStats |
