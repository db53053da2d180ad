/** The daily driver of main.py: for every (month, day) bucket it either
    skips the day, because both hourly products already exist, or
    downloads that day's files for every year and processes them; then it
    empties the temp directory of `.nc` files. The file system is the
    state of a `Workspace`; the download and the processing are recorded
    as steps in its log. */
module DailyDriver {
  import opened Text
  import opened Calendar
  import opened DateLists
  import opened Buckets
  import opened Seqs

  /** The years whose files feed every bucket. */
  const FirstYear := 1989
  const LastYear := 2019
  /** The non-leap year whose month lengths give the days of each month. */
  const DayListYear := 2019
  /** The months the script runs: December only. */
  const ScriptMonths: seq<nat> := [12]

  /** The days main.py iterates for a month: 1 .. the month's length in
      2019. */
  function BucketDays(month: nat): (days: seq<int>)
    requires 1 <= month <= 12
    ensures forall d :: d in days <==> 1 <= d <= DaysInMonth(DayListYear, month)
  {
    OneToMembers(DaysInMonth(DayListYear, month));
    OneTo(DaysInMonth(DayListYear, month))
  }

  /** They are get_days_in_month(2019, month). */
  lemma BucketDaysFromUtils(month: nat)
    requires 1 <= month <= 12
    ensures DaysOfMonth(DayListYear, month).Ok?
    ensures BucketDays(month) == DaysOfMonth(DayListYear, month).value
  {
  }

  /** Every bucket day is a day of its month, and as the day lists come
      from a non-leap year, 29 February is never a bucket. */
  lemma NoLeapDayBucket(month: nat)
    requires 1 <= month <= 12
    ensures 29 in BucketDays(month) <==> month != 2
    ensures |BucketDays(month)| == MonthLengths[month - 1]
  {
    assert !IsLeap(DayListYear);
  }

  /** December products are labelled 1989-2019, and the dates fetched for
      a December day run from that day in 1989 to that day in 2019. */
  lemma DecemberLabelMatchesData(day: nat)
    requires 1 <= day <= 31
    ensures Period(12) == "1989-2019"
    ensures var ds := SameDayDates(FirstYear, LastYear, 12, day);
      |ds| == 31 && ds[0].year == 1989 && ds[|ds| - 1].year == 2019
  {
    SameDayDatesComplete(FirstYear, LastYear, 12, day);
    assert ValidDate(Date(1989, 12, day)) && ValidDate(Date(2019, 12, day));
    SameDayFirst(FirstYear, LastYear, 12, day);
    SameDayLast(FirstYear, LastYear, 12, day);
  }

  // ---------------------------------------------------------------------
  // Steps and their specification

  /** An effect on the outside world, in the order the driver causes it. */
  datatype Step =
    | Download(dates: seq<string>)      // run_parallel over the dates
    | Generate(month: nat, day: nat)    // gen_hrly_files(month, day)
    | Removed(name: string)             // os.remove succeeded
    | RemoveFailed(name: string)        // os.remove raised; reported and skipped

  /** The name a date's download is stored under: `{date}12.nc`. */
  function DownloadName(date: string): string
  {
    date + "12.nc"
  }

  predicate Skipped(saved: set<string>, month: nat, day: nat)
  {
    SpeedName(month, day) in saved && DirName(month, day) in saved
  }

  /** The dates a bucket downloads: the day in every year it exists. */
  function DayDates(month: nat, day: nat): seq<string>
  {
    SameDayDatesFacts(FirstYear, LastYear, month, day);
    FormatAll(SameDayDates(FirstYear, LastYear, month, day))
  }

  /** The work for one bucket: nothing when both products exist,
      otherwise the download of the day in every year, then processing. */
  function DayWork(month: nat, day: nat, saved: set<string>): (steps: seq<Step>)
    ensures SameDayValid(FirstYear, LastYear, month, day)
  {
    SameDayDatesFacts(FirstYear, LastYear, month, day);
    if Skipped(saved, month, day) then []
    else [Download(DayDates(month, day)), Generate(month, day)]
  }

  /** The listing after downloading `dates`: the names that arrive and
      were not there yet are added. */
  function Fetch(listing: seq<string>, dates: seq<string>, arrived: set<string>): seq<string>
  {
    if dates == [] then listing
    else
      var n := DownloadName(dates[|dates| - 1]);
      var before := Fetch(listing, dates[..|dates| - 1], arrived);
      if n in arrived && n !in before then before + [n] else before
  }

  predicate IsNc(name: string)
  {
    EndsWith(name, ".nc")
  }

  /** The removal step for one listed name (none for a name that is not
      `.nc`). */
  function StepFor(name: string, locked: set<string>): seq<Step>
  {
    if !IsNc(name) then [] else if name in locked then [RemoveFailed(name)] else [Removed(name)]
  }

  /** The removal steps for a listing, in listing order. */
  function CleanupSteps(listing: seq<string>, locked: set<string>): seq<Step>
  {
    if listing == [] then []
    else CleanupSteps(listing[..|listing| - 1], locked) + StepFor(listing[|listing| - 1], locked)
  }

  /** Whether a listed name survives the cleanup. */
  predicate Kept(name: string, locked: set<string>)
  {
    !IsNc(name) || name in locked
  }

  /** The listing once the cleanup is done. */
  function Remaining(listing: seq<string>, locked: set<string>): seq<string>
  {
    if listing == [] then []
    else
      var f := listing[|listing| - 1];
      Remaining(listing[..|listing| - 1], locked) + (if Kept(f, locked) then [f] else [])
  }

  lemma CleanupSnoc(listing: seq<string>, t: nat, locked: set<string>)
    requires t < |listing|
    ensures CleanupSteps(listing[..t + 1], locked) == CleanupSteps(listing[..t], locked) + StepFor(listing[t], locked)
    ensures Remaining(listing[..t + 1], locked)
         == Remaining(listing[..t], locked) + (if Kept(listing[t], locked) then [listing[t]] else [])
  {
    assert listing[..t + 1][..t] == listing[..t];
  }

  /** The cleanup removes exactly the `.nc` names it can, keeps every
      other name, and tries every `.nc` name once: a failed removal never
      stops it. */
  lemma {:induction false} CleanupFacts(listing: seq<string>, locked: set<string>)
    ensures forall f :: f in Remaining(listing, locked) <==> f in listing && Kept(f, locked)
    ensures forall s :: s in CleanupSteps(listing, locked) ==>
      (s.Removed? || s.RemoveFailed?) && s.name in listing && IsNc(s.name)
      && (s.Removed? <==> s.name !in locked)
    ensures forall f :: f in listing && IsNc(f) ==>
      (if f in locked then RemoveFailed(f) else Removed(f)) in CleanupSteps(listing, locked)
  {
    if listing != [] {
      var init, f := listing[..|listing| - 1], listing[|listing| - 1];
      CleanupFacts(init, locked);
      assert listing == init + [f];
    }
  }

  /** Cleaning an already cleaned directory keeps it as it is, and every
      removal it tries fails again. */
  lemma {:induction false} CleanupIdempotent(listing: seq<string>, locked: set<string>)
    ensures Remaining(Remaining(listing, locked), locked) == Remaining(listing, locked)
  {
    if listing != [] {
      var init, f := listing[..|listing| - 1], listing[|listing| - 1];
      CleanupIdempotent(init, locked);
      var r := Remaining(init, locked);
      if Kept(f, locked) {
        assert Remaining(listing, locked) == r + [f];
        assert (r + [f])[..|r + [f]| - 1] == r;
        assert Remaining(r + [f], locked) == Remaining(r, locked) + [f];
      } else {
        assert Remaining(listing, locked) == r + [];
        assert r + [] == r;
      }
    }
  }

  lemma CleanupAgainFails(listing: seq<string>, locked: set<string>)
    ensures forall s :: s in CleanupSteps(Remaining(listing, locked), locked) ==> s.RemoveFailed?
  {
    CleanupFacts(Remaining(listing, locked), locked);
    CleanupFacts(listing, locked);
  }

  /** Every download name ends in `.nc`, so a day's downloads are all
      removed from the temp directory except those that cannot be. */
  lemma DownloadsAreNc(date: string)
    ensures IsNc(DownloadName(date))
  {
    var n := DownloadName(date);
    assert n[|n| - 3..] == ".nc";
  }

  // ---------------------------------------------------------------------
  // The driver

  /** The buckets of `months` whose products are missing, in processing
      order. */
  function PendingIn(month: nat, days: seq<int>, saved: set<string>): seq<(nat, nat)>
  {
    if days == [] then []
    else
      var d := days[|days| - 1];
      PendingIn(month, days[..|days| - 1], saved)
        + (if d >= 0 && !Skipped(saved, month, d) then [(month, d as nat)] else [])
  }

  function Pending(months: seq<nat>, saved: set<string>): seq<(nat, nat)>
  {
    if months == [] then []
    else
      var m := months[|months| - 1];
      Pending(months[..|months| - 1], saved) + (if 1 <= m <= 12 then PendingIn(m, BucketDays(m), saved) else [])
  }

  lemma PendingSnoc(months: seq<nat>, k: nat, saved: set<string>)
    requires k < |months| && 1 <= months[k] <= 12
    ensures Pending(months[..k + 1], saved) == Pending(months[..k], saved) + PendingIn(months[k], BucketDays(months[k]), saved)
  {
    assert months[..k + 1][..k] == months[..k];
  }

  lemma PendingInSnoc(month: nat, days: seq<int>, k: nat, saved: set<string>)
    requires k < |days|
    ensures PendingIn(month, days[..k + 1], saved)
         == PendingIn(month, days[..k], saved)
            + (if days[k] >= 0 && !Skipped(saved, month, days[k]) then [(month, days[k] as nat)] else [])
  {
    assert days[..k + 1][..k] == days[..k];
  }

  /** The buckets a log processed, in order. */
  function Generated(steps: seq<Step>): seq<(nat, nat)>
  {
    if steps == [] then []
    else
      var s := steps[|steps| - 1];
      Generated(steps[..|steps| - 1]) + (if s.Generate? then [(s.month, s.day)] else [])
  }

  lemma {:induction false} GeneratedAppend(a: seq<Step>, b: seq<Step>)
    ensures Generated(a + b) == Generated(a) + Generated(b)
  {
    if b != [] {
      GeneratedAppend(a, b[..|b| - 1]);
      assert (a + b)[..|a + b| - 1] == a + b[..|b| - 1];
    } else {
      assert a + b == a;
    }
  }

  lemma {:induction false} CleanupGeneratesNothing(listing: seq<string>, locked: set<string>)
    ensures Generated(CleanupSteps(listing, locked)) == []
  {
    if listing != [] {
      CleanupGeneratesNothing(listing[..|listing| - 1], locked);
      GeneratedAppend(CleanupSteps(listing[..|listing| - 1], locked), StepFor(listing[|listing| - 1], locked));
    }
  }

  /** The downloads a log made, in order. */
  function Downloads(steps: seq<Step>): seq<seq<string>>
  {
    if steps == [] then []
    else
      var s := steps[|steps| - 1];
      Downloads(steps[..|steps| - 1]) + (if s.Download? then [s.dates] else [])
  }

  lemma {:induction false} DownloadsAppend(a: seq<Step>, b: seq<Step>)
    ensures Downloads(a + b) == Downloads(a) + Downloads(b)
  {
    if b != [] {
      DownloadsAppend(a, b[..|b| - 1]);
      assert (a + b)[..|a + b| - 1] == a + b[..|b| - 1];
    } else {
      assert a + b == a;
    }
  }

  lemma {:induction false} CleanupDownloadsNothing(listing: seq<string>, locked: set<string>)
    ensures Downloads(CleanupSteps(listing, locked)) == []
  {
    if listing != [] {
      CleanupDownloadsNothing(listing[..|listing| - 1], locked);
      DownloadsAppend(CleanupSteps(listing[..|listing| - 1], locked), StepFor(listing[|listing| - 1], locked));
    }
  }

  /** The dates each of some buckets downloads, in bucket order. */
  function FetchedDates(buckets: seq<(nat, nat)>): (r: seq<seq<string>>)
    ensures |r| == |buckets|
  {
    seq(|buckets|, i requires 0 <= i < |buckets| => DayDates(buckets[i].0, buckets[i].1))
  }

  lemma FetchedDatesAppend(a: seq<(nat, nat)>, b: seq<(nat, nat)>)
    ensures FetchedDates(a + b) == FetchedDates(a) + FetchedDates(b)
  {
    assert forall i :: 0 <= i < |a + b| ==> FetchedDates(a + b)[i] == (FetchedDates(a) + FetchedDates(b))[i];
  }

  /** What the driver leaves behind: the steps it took and the temp
      listing. */
  datatype Effect = Effect(steps: seq<Step>, temp: seq<string>)

  /** One (month, day) iteration from a temp listing: skip or download and
      process, then clean the temp directory. */
  function DayEffect(temp: seq<string>, month: nat, day: nat, saved: set<string>, arrived: set<string>,
                     locked: set<string>): Effect
  {
    var listing := if Skipped(saved, month, day) then temp else Fetch(temp, DayDates(month, day), arrived);
    Effect(DayWork(month, day, saved) + CleanupSteps(listing, locked), Remaining(listing, locked))
  }

  /** The day loop over `days`, one iteration after the other. */
  function DaysEffect(temp: seq<string>, month: nat, days: seq<int>, saved: set<string>, arrived: set<string>,
                      locked: set<string>): Effect
  {
    if days == [] then Effect([], temp)
    else
      var d := days[|days| - 1];
      var before := DaysEffect(temp, month, days[..|days| - 1], saved, arrived, locked);
      if d < 0 then before
      else
        var e := DayEffect(before.temp, month, d as nat, saved, arrived, locked);
        Effect(before.steps + e.steps, e.temp)
  }

  /** The month loop over `months`, each month's day loop after the
      other. */
  function MonthsEffect(temp: seq<string>, months: seq<nat>, saved: set<string>, arrived: set<string>,
                        locked: set<string>): Effect
  {
    if months == [] then Effect([], temp)
    else
      var m := months[|months| - 1];
      var before := MonthsEffect(temp, months[..|months| - 1], saved, arrived, locked);
      if 1 <= m <= 12 then
        var e := DaysEffect(before.temp, m, BucketDays(m), saved, arrived, locked);
        Effect(before.steps + e.steps, e.temp)
      else before
  }

  lemma DaysEffectSnoc(temp: seq<string>, month: nat, days: seq<int>, k: nat, saved: set<string>,
                       arrived: set<string>, locked: set<string>)
    requires k < |days| && days[k] >= 0
    ensures var before := DaysEffect(temp, month, days[..k], saved, arrived, locked);
            var e := DayEffect(before.temp, month, days[k] as nat, saved, arrived, locked);
            DaysEffect(temp, month, days[..k + 1], saved, arrived, locked) == Effect(before.steps + e.steps, e.temp)
  {
    assert days[..k + 1][..k] == days[..k];
  }

  lemma MonthsEffectSnoc(temp: seq<string>, months: seq<nat>, k: nat, saved: set<string>,
                         arrived: set<string>, locked: set<string>)
    requires k < |months| && 1 <= months[k] <= 12
    ensures var before := MonthsEffect(temp, months[..k], saved, arrived, locked);
            var e := DaysEffect(before.temp, months[k], BucketDays(months[k]), saved, arrived, locked);
            MonthsEffect(temp, months[..k + 1], saved, arrived, locked) == Effect(before.steps + e.steps, e.temp)
  {
    assert months[..k + 1][..k] == months[..k];
  }

  /** The directories main.py works in and the effects it has had. */
  class Workspace {
    /** Names in the output directory of hourly products when the run starts. */
    const saved: set<string>
    /** The temp directory listing. */
    var temp: seq<string>
    /** Downloads, processing runs and removals, in order. */
    var log: seq<Step>

    constructor (saved0: set<string>, temp0: seq<string>)
      ensures saved == saved0 && temp == temp0 && log == []
    {
      saved, temp, log := saved0, temp0, [];
    }

    /** The cleanup loop: every listed `.nc` name is removed unless its
        removal fails, which is reported and skipped. */
    method CleanTemp(locked: set<string>)
      modifies this
      ensures temp == Remaining(old(temp), locked)
      ensures log == old(log) + CleanupSteps(old(temp), locked)
      ensures forall f :: f in temp && IsNc(f) ==> f in locked
    {
      var listing := temp;
      ghost var log0 := log;
      var kept: seq<string> := [];
      for t := 0 to |listing|
        invariant kept == Remaining(listing[..t], locked)
        invariant temp == kept + listing[t..]
        invariant log == log0 + CleanupSteps(listing[..t], locked)
      {
        var f := listing[t];
        CleanupSnoc(listing, t, locked);
        AppendAssoc(log0, CleanupSteps(listing[..t], locked), StepFor(f, locked));
        if IsNc(f) {
          if f in locked {
            log := log + [RemoveFailed(f)];
            kept := kept + [f];
          } else {
            log := log + [Removed(f)];
          }
        } else {
          kept := kept + [f];
        }
        temp := kept + listing[t + 1..];
      }
      assert listing[..|listing|] == listing;
      CleanupFacts(listing, locked);
    }

    /** One (month, day) iteration of main.py: skip or download and
        process, then clean the temp directory. */
    method RunDay(month: nat, day: nat, arrived: set<string>, locked: set<string>)
      modifies this
      ensures SameDayValid(FirstYear, LastYear, month, day)
      ensures var listing := if Skipped(saved, month, day) then old(temp)
                             else Fetch(old(temp), DayDates(month, day), arrived);
        && log == old(log) + DayWork(month, day, saved) + CleanupSteps(listing, locked)
        && temp == Remaining(listing, locked)
      ensures forall f :: f in temp && IsNc(f) ==> f in locked
    {
      var dates := DatesAcrossYears(FirstYear, LastYear, month, day);
      var sname, dname := SpeedName(month, day), DirName(month, day);
      ghost var work := DayWork(month, day, saved);
      if !(sname in saved && dname in saved) {
        log := log + [Download(dates)];
        temp := Fetch(temp, dates, arrived);
        log := log + [Generate(month, day)];
        assert work == [Download(dates), Generate(month, day)];
        assert log == old(log) + work;
      } else {
        assert work == [];
        assert log == old(log) + work;
      }
      assert temp == if Skipped(saved, month, day) then old(temp)
                     else Fetch(old(temp), DayDates(month, day), arrived);
      CleanTemp(locked);
      SameDayAllValid(FirstYear, LastYear, month, day);
    }

    /** The day loop of main.py for one month. */
    method RunMonth(month: nat, arrived: set<string>, locked: set<string>)
      requires 1 <= month <= 12
      modifies this
      ensures var e := DaysEffect(old(temp), month, BucketDays(month), saved, arrived, locked);
              log == old(log) + e.steps && temp == e.temp
      ensures Generated(log) == Generated(old(log)) + PendingIn(month, BucketDays(month), saved)
      ensures forall f :: f in temp && IsNc(f) ==> f in locked
    {
      var days := BucketDays(month);
      ghost var log0, temp0 := log, temp;
      for di := 0 to |days|
        invariant var e := DaysEffect(temp0, month, days[..di], saved, arrived, locked);
                  log == log0 + e.steps && temp == e.temp
        invariant Generated(log) == Generated(log0) + PendingIn(month, days[..di], saved)
        invariant di > 0 ==> forall f :: f in temp && IsNc(f) ==> f in locked
      {
        var day := days[di];
        assert day in days;
        ghost var before, tempBefore := log, temp;
        RunDay(month, day as nat, arrived, locked);
        MonthStep(log0, temp0, month, days, di, saved, arrived, locked, before, tempBefore, log, temp);
      }
      assert days[..|days|] == days;
    }

    /** The month and day loops of main.py: the steps taken and the temp
        listing left are the month loop's effect; the buckets processed are
        exactly those whose products are missing, in month and day order,
        and after every day the temp directory holds no `.nc` file it could
        remove. */
    method Run(months: seq<nat>, arrived: set<string>, locked: set<string>)
      requires forall i :: 0 <= i < |months| ==> 1 <= months[i] <= 12
      modifies this
      ensures var e := MonthsEffect(old(temp), months, saved, arrived, locked);
              log == old(log) + e.steps && temp == e.temp
      ensures Generated(log) == Generated(old(log)) + Pending(months, saved)
      ensures months != [] ==> forall f :: f in temp && IsNc(f) ==> f in locked
    {
      ghost var g0 := Generated(log);
      ghost var done: seq<(nat, nat)> := [];
      for mi := 0 to |months|
        invariant var e := MonthsEffect(old(temp), months[..mi], saved, arrived, locked);
                  log == old(log) + e.steps && temp == e.temp
        invariant done == Pending(months[..mi], saved)
        invariant Generated(log) == g0 + done
        invariant mi > 0 ==> forall f :: f in temp && IsNc(f) ==> f in locked
      {
        ghost var prior := MonthsEffect(old(temp), months[..mi], saved, arrived, locked);
        RunMonth(months[mi], arrived, locked);
        MonthsEffectSnoc(old(temp), months, mi, saved, arrived, locked);
        AppendAssoc(old(log), prior.steps,
          DaysEffect(prior.temp, months[mi], BucketDays(months[mi]), saved, arrived, locked).steps);
        PendingSnoc(months, mi, saved);
        ghost var here := PendingIn(months[mi], BucketDays(months[mi]), saved);
        AppendAssoc(g0, done, here);
        done := done + here;
      }
      assert months[..|months|] == months;
    }
  }

  /** One iteration of the day loop carries the loop's state, given as
      the steps and listing before and after the day, one day further. */
  lemma MonthStep(log0: seq<Step>, temp0: seq<string>, month: nat, days: seq<int>, di: nat, saved: set<string>,
                  arrived: set<string>, locked: set<string>, before: seq<Step>, tempBefore: seq<string>,
                  after: seq<Step>, tempAfter: seq<string>)
    requires di < |days| && days[di] >= 0
    requires var e := DaysEffect(temp0, month, days[..di], saved, arrived, locked);
             before == log0 + e.steps && tempBefore == e.temp
    requires Generated(before) == Generated(log0) + PendingIn(month, days[..di], saved)
    requires var day := days[di] as nat;
             var listing := if Skipped(saved, month, day) then tempBefore
                            else Fetch(tempBefore, DayDates(month, day), arrived);
             after == before + DayWork(month, day, saved) + CleanupSteps(listing, locked)
             && tempAfter == Remaining(listing, locked)
    ensures var e := DaysEffect(temp0, month, days[..di + 1], saved, arrived, locked);
            after == log0 + e.steps && tempAfter == e.temp
    ensures Generated(after) == Generated(log0) + PendingIn(month, days[..di + 1], saved)
  {
    var day := days[di] as nat;
    var listing := if Skipped(saved, month, day) then tempBefore else Fetch(tempBefore, DayDates(month, day), arrived);
    PendingInSnoc(month, days, di, saved);
    DaysEffectSnoc(temp0, month, days, di, saved, arrived, locked);
    DayGenerated(before, after, month, day, saved, listing, locked);
    DayEffectOf(before, after, tempBefore, tempAfter, month, day, saved, arrived, locked);
    var prior := DaysEffect(temp0, month, days[..di], saved, arrived, locked);
    AppendAssoc(log0, prior.steps, DayEffect(tempBefore, month, day, saved, arrived, locked).steps);
    AppendAssoc(Generated(log0), PendingIn(month, days[..di], saved),
      if Skipped(saved, month, day) then [] else [(month, day)]);
  }

  /** One day's steps and listing are its effect. */
  lemma DayEffectOf(before: seq<Step>, after: seq<Step>, temp0: seq<string>, temp1: seq<string>, month: nat,
                    day: nat, saved: set<string>, arrived: set<string>, locked: set<string>)
    requires var listing := if Skipped(saved, month, day) then temp0 else Fetch(temp0, DayDates(month, day), arrived);
             && after == before + DayWork(month, day, saved) + CleanupSteps(listing, locked)
             && temp1 == Remaining(listing, locked)
    ensures var e := DayEffect(temp0, month, day, saved, arrived, locked);
            after == before + e.steps && temp1 == e.temp
  {
    var listing := if Skipped(saved, month, day) then temp0 else Fetch(temp0, DayDates(month, day), arrived);
    AppendAssoc(before, DayWork(month, day, saved), CleanupSteps(listing, locked));
  }

  /** A day downloads the day in every year and processes its bucket
      exactly when its products are missing; its cleanup does neither. */
  lemma DayEffectWork(temp: seq<string>, month: nat, day: nat, saved: set<string>, arrived: set<string>,
                      locked: set<string>)
    ensures var steps := DayEffect(temp, month, day, saved, arrived, locked).steps;
            && Generated(steps) == (if Skipped(saved, month, day) then [] else [(month, day)])
            && Downloads(steps) == (if Skipped(saved, month, day) then [] else [DayDates(month, day)])
  {
    var listing := if Skipped(saved, month, day) then temp else Fetch(temp, DayDates(month, day), arrived);
    var work := DayWork(month, day, saved);
    GeneratedAppend(work, CleanupSteps(listing, locked));
    DownloadsAppend(work, CleanupSteps(listing, locked));
    CleanupGeneratesNothing(listing, locked);
    CleanupDownloadsNothing(listing, locked);
    WorkGenerated(month, day, saved);
    WorkDownloads(month, day, saved);
  }

  /** A month's day loop processes exactly the month's pending buckets and
      downloads exactly their dates, in day order. */
  lemma {:induction false} DaysEffectWork(temp: seq<string>, month: nat, days: seq<int>, saved: set<string>,
                                          arrived: set<string>, locked: set<string>)
    ensures var steps := DaysEffect(temp, month, days, saved, arrived, locked).steps;
            && Generated(steps) == PendingIn(month, days, saved)
            && Downloads(steps) == FetchedDates(PendingIn(month, days, saved))
  {
    if days != [] {
      var init, d := days[..|days| - 1], days[|days| - 1];
      DaysEffectWork(temp, month, init, saved, arrived, locked);
      if d >= 0 {
        var before := DaysEffect(temp, month, init, saved, arrived, locked);
        var e := DayEffect(before.temp, month, d as nat, saved, arrived, locked);
        DayEffectWork(before.temp, month, d as nat, saved, arrived, locked);
        GeneratedAppend(before.steps, e.steps);
        DownloadsAppend(before.steps, e.steps);
        var here: seq<(nat, nat)> := if Skipped(saved, month, d as nat) then [] else [(month, d as nat)];
        FetchedDatesAppend(PendingIn(month, init, saved), here);
        assert FetchedDates(here) == if Skipped(saved, month, d as nat) then [] else [DayDates(month, d as nat)];
      }
    }
  }

  /** The whole run processes exactly the pending buckets and downloads
      exactly their dates, in month and day order: a bucket whose products
      are both saved is never downloaded. */
  lemma {:induction false} RunWork(temp: seq<string>, months: seq<nat>, saved: set<string>, arrived: set<string>,
                                   locked: set<string>)
    ensures var steps := MonthsEffect(temp, months, saved, arrived, locked).steps;
            && Generated(steps) == Pending(months, saved)
            && Downloads(steps) == FetchedDates(Pending(months, saved))
  {
    if months != [] {
      var init, m := months[..|months| - 1], months[|months| - 1];
      RunWork(temp, init, saved, arrived, locked);
      if 1 <= m <= 12 {
        var before := MonthsEffect(temp, init, saved, arrived, locked);
        var e := DaysEffect(before.temp, m, BucketDays(m), saved, arrived, locked);
        DaysEffectWork(before.temp, m, BucketDays(m), saved, arrived, locked);
        GeneratedAppend(before.steps, e.steps);
        DownloadsAppend(before.steps, e.steps);
        FetchedDatesAppend(Pending(init, saved), PendingIn(m, BucketDays(m), saved));
      }
    }
  }

  /** One day adds its bucket to the processed list when, and only when,
      its products are missing. */
  lemma DayGenerated(before: seq<Step>, after: seq<Step>, month: nat, day: nat, saved: set<string>,
                     listing: seq<string>, locked: set<string>)
    requires after == before + DayWork(month, day, saved) + CleanupSteps(listing, locked)
    ensures before <= after
    ensures Generated(after) == Generated(before) + (if Skipped(saved, month, day) then [] else [(month, day)])
  {
    var work := DayWork(month, day, saved);
    GeneratedAppend(before + work, CleanupSteps(listing, locked));
    GeneratedAppend(before, work);
    CleanupGeneratesNothing(listing, locked);
    WorkGenerated(month, day, saved);
    assert after[..|before|] == before;
  }

  lemma WorkDownloads(month: nat, day: nat, saved: set<string>)
    ensures Downloads(DayWork(month, day, saved)) == if Skipped(saved, month, day) then [] else [DayDates(month, day)]
  {
    var work := DayWork(month, day, saved);
    if !Skipped(saved, month, day) {
      assert |work| == 2 && work[0] == Download(DayDates(month, day)) && work[1].Generate?;
      assert work[..1][..0] == [];
      assert Downloads(work[..1]) == [DayDates(month, day)];
    }
  }

  lemma WorkGenerated(month: nat, day: nat, saved: set<string>)
    ensures Generated(DayWork(month, day, saved)) == if Skipped(saved, month, day) then [] else [(month, day)]
  {
    var work := DayWork(month, day, saved);
    if !Skipped(saved, month, day) {
      assert |work| == 2 && work[1] == Generate(month, day);
      assert work[..1][..0] == [];
      assert Generated(work[..1]) == [];
    }
  }
}
