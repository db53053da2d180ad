/** gen_hrly_winds.py: for one (month, day) bucket, select that day's
    downloads from the temp listing, convert each file's wind speed from
    knots to km/h, concatenate every file along time (the first file
    initialises the accumulators, later files are appended), and write the
    two hourly products unless both already exist. Opening a file is the
    `read` parameter; writing is the returned outcome. */
module HourlyWinds {
  import opened Text
  import opened Calendar
  import opened Seqs
  import opened Reduce
  import opened Buckets
  import opened DailyDriver

  /** `{MM}{DD}12.nc`: the tail every download of a (month, day) ends with. */
  function DayKey(month: nat, day: nat): string
  {
    ZeroPad(month, 2) + ZeroPad(day, 2) + "12.nc"
  }

  /** The day files: the listed names holding the day key, in listing
      order. */
  function DayFiles(listing: seq<string>, month: nat, day: nat): seq<string>
  {
    Filter(listing, f => Contains(f, DayKey(month, day)))
  }

  /** One opened day file: wind speed in knots and wind direction, as
      time-ordered frames. */
  datatype DayData = DayData(speed: Series, dir: Series)

  /** What the script ends with. */
  datatype Outcome =
    | NameError                 // no day file: the product names were never bound
    | AlreadyDone               // both products exist: nothing is written
    | Written(speedName: string, dirName: string, speed: Series, dir: Series)

  /** Each day file's speed, converted to km/h, in file order. */
  function Speeds(files: seq<string>, read: string -> DayData): (r: seq<Series>)
    ensures |r| == |files|
  {
    seq(|files|, i requires 0 <= i < |files| => Scale(read(files[i]).speed, KnotsToKmh))
  }

  /** Each day file's raw speed in knots, in file order. */
  function RawSpeeds(files: seq<string>, read: string -> DayData): (r: seq<Series>)
    ensures |r| == |files|
  {
    seq(|files|, i requires 0 <= i < |files| => read(files[i]).speed)
  }

  /** Each day file's direction, in file order. */
  function Dirs(files: seq<string>, read: string -> DayData): (r: seq<Series>)
    ensures |r| == |files|
  {
    seq(|files|, i requires 0 <= i < |files| => read(files[i]).dir)
  }

  /** The outcome of the script over a temp listing and the products
      already saved. */
  function Hourly(listing: seq<string>, month: nat, day: nat, saved: set<string>,
                  read: string -> DayData): Outcome
  {
    var files := DayFiles(listing, month, day);
    if files == [] then NameError
    else if Skipped(saved, month, day) then AlreadyDone
    else Written(SpeedName(month, day), DirName(month, day),
                 Flatten(Speeds(files, read)), Flatten(Dirs(files, read)))
  }

  /** The script's loop over the day files and its final save. */
  method GenHourly(listing: seq<string>, month: nat, day: nat, saved: set<string>,
                   read: string -> DayData) returns (out: Outcome, count: nat)
    ensures count == |DayFiles(listing, month, day)|
    ensures out == Hourly(listing, month, day, saved, read)
  {
    var files := DayFiles(listing, month, day);
    count := 0;
    var named := false;
    var sname, dname := "", "";
    var wsAll: Series := [];
    var wdAll: Series := [];
    for k := 0 to |files|
      invariant count == k && (named <==> k > 0)
      invariant named ==> sname == SpeedName(month, day) && dname == DirName(month, day)
      invariant !Skipped(saved, month, day) ==>
                  wsAll == Flatten(Speeds(files[..k], read)) && wdAll == Flatten(Dirs(files[..k], read))
    {
      var file := files[k];
      sname, dname := SpeedName(month, day), DirName(month, day);
      named := true;
      if !(sname in saved && dname in saved) {
        var data := read(file);
        var ws := Scale(data.speed, KnotsToKmh);
        var wd := data.dir;
        AccumulateStep(files, k, read);
        if count == 0 {
          wsAll := ws;
          wdAll := wd;
        } else {
          wsAll := wsAll + ws;
          wdAll := wdAll + wd;
        }
      }
      count := count + 1;
    }
    if !named {
      return NameError, count;
    }
    assert files[..|files|] == files;
    if sname in saved && dname in saved {
      out := AlreadyDone;
    } else {
      out := Written(sname, dname, wsAll, wdAll);
    }
  }

  /** One more day file extends the accumulated products by its own
      frames. */
  lemma AccumulateStep(files: seq<string>, k: nat, read: string -> DayData)
    requires k < |files|
    ensures Flatten(Speeds(files[..0], read)) == [] && Flatten(Dirs(files[..0], read)) == []
    ensures Flatten(Speeds(files[..k + 1], read))
            == Flatten(Speeds(files[..k], read)) + Scale(read(files[k]).speed, KnotsToKmh)
    ensures Flatten(Dirs(files[..k + 1], read)) == Flatten(Dirs(files[..k], read)) + read(files[k]).dir
    ensures Flatten(RawSpeeds(files[..k + 1], read)) == Flatten(RawSpeeds(files[..k], read)) + read(files[k]).speed
  {
    assert RawSpeeds(files[..k + 1], read) == RawSpeeds(files[..k], read) + [read(files[k]).speed];
    FlattenSnoc(RawSpeeds(files[..k], read), read(files[k]).speed);
    assert Speeds(files[..k + 1], read) == Speeds(files[..k], read) + [Scale(read(files[k]).speed, KnotsToKmh)];
    assert Dirs(files[..k + 1], read) == Dirs(files[..k], read) + [read(files[k]).dir];
    FlattenSnoc(Speeds(files[..k], read), Scale(read(files[k]).speed, KnotsToKmh));
    FlattenSnoc(Dirs(files[..k], read), read(files[k]).dir);
  }

  /** Converting day by day and concatenating equals converting the
      concatenation. */
  lemma {:induction false} ScaleFlatten(files: seq<string>, read: string -> DayData)
    ensures Flatten(Speeds(files, read)) == Scale(Flatten(RawSpeeds(files, read)), KnotsToKmh)
    decreases |files|
  {
    if files != [] {
      var init, last := files[..|files| - 1], files[|files| - 1];
      assert Speeds(files, read) == Speeds(init, read) + [Scale(read(last).speed, KnotsToKmh)];
      assert RawSpeeds(files, read) == RawSpeeds(init, read) + [read(last).speed];
      FlattenSnoc(Speeds(init, read), Scale(read(last).speed, KnotsToKmh));
      FlattenSnoc(RawSpeeds(init, read), read(last).speed);
      ScaleFlatten(init, read);
      ScaleAppend(Flatten(RawSpeeds(init, read)), read(last).speed, KnotsToKmh);
    }
  }

  /** A written speed product is the knots-to-km/h conversion of every day
      file's speed, concatenated in file order and sample by sample; the
      direction product is the directions concatenated unchanged; both run
      over as many hours as the day files hold together. */
  lemma WrittenProducts(listing: seq<string>, month: nat, day: nat, saved: set<string>,
                        read: string -> DayData)
    requires Hourly(listing, month, day, saved, read).Written?
    ensures var out := Hourly(listing, month, day, saved, read);
            var files := DayFiles(listing, month, day);
            && out.speedName == SpeedName(month, day) && out.dirName == DirName(month, day)
            && out.speed == Scale(Flatten(RawSpeeds(files, read)), KnotsToKmh)
            && |out.speed| == TotalLength(RawSpeeds(files, read))
            && out.dir == Flatten(Dirs(files, read))
            && |out.dir| == TotalLength(Dirs(files, read))
  {
    var files := DayFiles(listing, month, day);
    ScaleFlatten(files, read);
    FlattenLength(RawSpeeds(files, read));
    FlattenLength(Dirs(files, read));
  }

  /** The three ends of the script: the names are unbound exactly when no
      file holds the day key; otherwise nothing is written exactly when
      both products exist. */
  lemma HourlyCases(listing: seq<string>, month: nat, day: nat, saved: set<string>,
                    read: string -> DayData)
    ensures var out := Hourly(listing, month, day, saved, read);
            && (out.NameError? <==> forall f :: f in listing ==> !Contains(f, DayKey(month, day)))
            && (out.AlreadyDone? <==> out != NameError && Skipped(saved, month, day))
            && (out.Written? <==> out != NameError && !Skipped(saved, month, day))
  {
    var files := DayFiles(listing, month, day);
    if files == [] {
      forall f | f in listing
        ensures !Contains(f, DayKey(month, day))
      {
        var i :| 0 <= i < |listing| && listing[i] == f;
      }
    } else {
      assert files[0] in listing && Contains(files[0], DayKey(month, day));
    }
  }

  /** The name a date is downloaded under holds the day key of a bucket
      exactly when the date falls on that bucket's month and day, so the
      selection picks every year of the bucket and no other day. */
  lemma DownloadSelected(e: Date, month: nat, day: nat)
    requires ValidDate(e) && 1 <= month <= 12 && 1 <= day <= 31
    ensures Contains(DownloadName(Format(e)), DayKey(month, day)) <==> e.month == month && e.day == day
  {
    if Contains(DownloadName(Format(e)), DayKey(month, day)) {
      KeyOnlyInOwnDay(e, month, day);
    }
    if e.month == month && e.day == day {
      KeyInOwnDay(e);
    }
  }

  /** `{YYYYMMDD}12.nc` split around its only `.`: the text before it
      ends with the date's month, day and `12`. */
  lemma DownloadLayout(e: Date)
    requires ValidDate(e)
    ensures var a := Format(e) + "12";
            && DownloadName(Format(e)) == a + ['.'] + "nc" && '.' !in a && |a| == 10
            && a[4..] == ZeroPad(e.month, 2) + ZeroPad(e.day, 2) + "12"
  {
    var f := Format(e);
    FormatDigits(e);
    NotInDigits('.', f);
    var a := f + "12";
    assert '.' !in a;
    assert a[4..] == f[4..] + "12";
    assert "12.nc" == "12" + (['.'] + "nc");
    AppendAssoc(f, "12", ['.'] + "nc");
    AppendAssoc(a, ['.'], "nc");
  }

  lemma KeyOnlyInOwnDay(e: Date, month: nat, day: nat)
    requires ValidDate(e) && 1 <= month <= 12 && 1 <= day <= 31
    requires Contains(DownloadName(Format(e)), DayKey(month, day))
    ensures e.month == month && e.day == day
  {
    DownloadLayout(e);
    DayKeyLayout(month, day);
    var a, x := Format(e) + "12", ZeroPad(month, 2) + ZeroPad(day, 2) + "12";
    var s := DownloadName(Format(e));
    var i :| 0 <= i <= |s| && OccursAt(s, DayKey(month, day), i);
    KeyAnchored(a, x, s, DayKey(month, day), i);
    DayFields(month, day, e.month, e.day);
  }

  /** A `{MMDD}12.nc` key inside `{YYYYMMDD}12.nc` covers the last six
      characters before the `.`. */
  lemma KeyAnchored(a: string, x: string, s: string, key: string, i: int)
    requires '.' !in a && |a| == 10 && |x| == 6
    requires s == a + ['.'] + "nc" && key == x + ['.'] + "nc" && OccursAt(s, key, i)
    ensures x == a[4..]
  {
    AnchoredAt(a, '.', "nc", x, "nc", i);
  }

  /** The day key is six characters, `MMDD12`, before the `.nc` extension. */
  lemma DayKeyLayout(month: nat, day: nat)
    requires month < 100 && day < 100
    ensures var x := ZeroPad(month, 2) + ZeroPad(day, 2) + "12";
            |x| == 6 && DayKey(month, day) == x + ['.'] + "nc"
  {
    assert Pow10(2) == 100;
    ZeroPadLength(month, 2);
    ZeroPadLength(day, 2);
    var x := ZeroPad(month, 2) + ZeroPad(day, 2) + "12";
    assert "12.nc" == "12" + (['.'] + "nc");
    AppendAssoc(ZeroPad(month, 2) + ZeroPad(day, 2), "12", ['.'] + "nc");
    AppendAssoc(x, ['.'], "nc");
  }

  /** Two `MMDD12` texts agree only for the same month and day. */
  lemma DayFields(m1: nat, d1: nat, m2: nat, d2: nat)
    requires m1 < 100 && d1 < 100 && m2 < 100 && d2 < 100
    requires ZeroPad(m1, 2) + ZeroPad(d1, 2) + "12" == ZeroPad(m2, 2) + ZeroPad(d2, 2) + "12"
    ensures m1 == m2 && d1 == d2
  {
    assert Pow10(2) == 100;
    ZeroPadLength(m1, 2);
    ZeroPadLength(d1, 2);
    ZeroPadLength(m2, 2);
    ZeroPadLength(d2, 2);
    var x, y := ZeroPad(m1, 2) + ZeroPad(d1, 2) + "12", ZeroPad(m2, 2) + ZeroPad(d2, 2) + "12";
    assert ZeroPad(m1, 2) == x[..2] == y[..2] == ZeroPad(m2, 2);
    assert ZeroPad(d1, 2) == x[2..4] == y[2..4] == ZeroPad(d2, 2);
    ZeroPadInjective(m1, m2, 2);
    ZeroPadInjective(d1, d2, 2);
  }

  lemma KeyInOwnDay(e: Date)
    requires ValidDate(e)
    ensures Contains(DownloadName(Format(e)), DayKey(e.month, e.day))
  {
    DownloadLayout(e);
    var s, a := DownloadName(Format(e)), Format(e) + "12";
    var k := DayKey(e.month, e.day);
    assert k == a[4..] + ".nc";
    assert s[4..4 + |k|] == k;
    ContainsAt(s, k, 4);
  }

  /** The names `dates` are downloaded under. */
  function DownloadNames(dates: seq<Date>): (r: seq<string>)
    requires forall i :: 0 <= i < |dates| ==> ValidDate(dates[i])
    ensures |r| == |dates|
  {
    seq(|dates|, i requires 0 <= i < |dates| && ValidDate(dates[i]) => DownloadName(Format(dates[i])))
  }

  /** Over a temp directory of downloads (a bucket's own, and leftovers of
      other days a failed cleanup kept), the day files are exactly the
      downloads of dates on the bucket's month and day. */
  lemma DayFilesOfDownloads(dates: seq<Date>, month: nat, day: nat)
    requires forall i :: 0 <= i < |dates| ==> ValidDate(dates[i])
    requires 1 <= month <= 12 && 1 <= day <= 31
    ensures forall i :: 0 <= i < |dates| ==>
              (DownloadNames(dates)[i] in DayFiles(DownloadNames(dates), month, day) <==>
                 dates[i].month == month && dates[i].day == day)
  {
    forall i | 0 <= i < |dates|
      ensures (DownloadNames(dates)[i] in DayFiles(DownloadNames(dates), month, day) <==>
                 dates[i].month == month && dates[i].day == day)
    {
      DownloadSelected(dates[i], month, day);
    }
  }
}
