/** Names of the per-day hourly products (main.py and gen_hrly_winds.py)
    and the substring tests later scripts select them with. */
module Buckets {
  import opened Text
  import opened Seqs

  const SpeedTag := "windspeed"
  const DirTag := "winddir"

  /** December is a 1989-2019 climatology; every other month 1990-2020. */
  function Period(month: nat): (p: string)
    ensures |p| == 9 && 'm' !in p && 'w' !in p
    ensures p == (if month == 12 then "1989-2019" else "1990-2020") || month > 12
  {
    if month < 12 then "1990-2020" else "1989-2019"
  }

  predicate IsTag(tag: string)
  {
    tag == SpeedTag || tag == DirTag
  }

  /** `_d{DD}.h5`, the day part that ends every product name. */
  function DayPart(day: nat): string
  {
    "_d" + ZeroPad(day, 2) + ".h5"
  }

  /** `{MM}_d{DD}.h5`, what follows the `m` of a product name. */
  function MonthPart(month: nat, day: nat): string
  {
    ZeroPad(month, 2) + DayPart(day)
  }

  /** What follows the variable tag in a product name. */
  function Suffix(month: nat, day: nat): (r: string)
    ensures 'w' !in r
  {
    NotInDigits('w', ZeroPad(month, 2));
    NotInDigits('w', ZeroPad(day, 2));
    "_m" + MonthPart(month, day)
  }

  /** `{period}_hrly_{tag}_m{MM}_d{DD}.h5`. */
  function HourlyName(tag: string, month: nat, day: nat): string
  {
    Period(month) + "_hrly_" + tag + Suffix(month, day)
  }

  function SpeedName(month: nat, day: nat): string { HourlyName(SpeedTag, month, day) }
  function DirName(month: nat, day: nat): string { HourlyName(DirTag, month, day) }

  /** The month-selection pattern `m{MM}`. */
  function MonthPattern(month: nat): string
  {
    "m" + ZeroPad(month, 2)
  }

  lemma TwoDigits(n: nat)
    requires n < 100
    ensures |ZeroPad(n, 2)| == 2
  {
    assert Pow10(2) == 100;
    ZeroPadLength(n, 2);
  }

  /** The name split around its only `m`. */
  lemma SplitAtM(tag: string, month: nat, day: nat)
    requires IsTag(tag)
    ensures var a := Period(month) + "_hrly_" + tag + "_";
            var b := MonthPart(month, day);
            HourlyName(tag, month, day) == a + ['m'] + b && 'm' !in a && 'm' !in b
  {
    NoMBefore(tag, month);
    NoMAfter(month, day);
    var x, b := Period(month) + "_hrly_" + tag, MonthPart(month, day);
    assert "_m" == "_" + ['m'];
    AppendAssoc("_", ['m'], b);
    AppendAssoc(x, "_", ['m'] + b);
    AppendAssoc(x + "_", ['m'], b);
  }

  lemma NoMBefore(tag: string, month: nat)
    requires IsTag(tag)
    ensures 'm' !in Period(month) + "_hrly_" + tag + "_"
  {
    assert 'm' !in tag;
    assert 'm' !in "_hrly_";
  }

  lemma NoMAfter(month: nat, day: nat)
    ensures 'm' !in MonthPart(month, day)
  {
    NotInDigits('m', ZeroPad(month, 2));
    NotInDigits('m', ZeroPad(day, 2));
  }

  /** The name ends with its day part. */
  lemma EndsWithDay(tag: string, month: nat, day: nat)
    ensures var x := Period(month) + "_hrly_" + tag + "_m" + ZeroPad(month, 2);
            HourlyName(tag, month, day) == x + DayPart(day)
  {
    var y := Period(month) + "_hrly_" + tag;
    AppendAssoc("_m", ZeroPad(month, 2), DayPart(day));
    AppendAssoc(y, "_m", ZeroPad(month, 2) + DayPart(day));
    AppendAssoc(y + "_m", ZeroPad(month, 2), DayPart(day));
  }

  /** The name split around its only `w`. */
  lemma SplitAtW(tag: string, month: nat, day: nat)
    requires IsTag(tag)
    ensures var a := Period(month) + "_hrly_";
            var b := tag[1..] + Suffix(month, day);
            HourlyName(tag, month, day) == a + ['w'] + b && 'w' !in a && 'w' !in b
  {
    var a, r, t := Period(month) + "_hrly_", Suffix(month, day), tag[1..];
    TagStartsWithW(tag);
    PrefixHasNoW(month);
    AppendAssoc(a, ['w'], t);
    AppendAssoc(a + ['w'], t, r);
  }

  lemma TagStartsWithW(tag: string)
    requires IsTag(tag)
    ensures tag == ['w'] + tag[1..] && 'w' !in tag[1..]
  {
  }

  lemma PrefixHasNoW(month: nat)
    ensures 'w' !in Period(month) + "_hrly_"
  {
  }

  /** A product name holds `m{MM}` exactly when it is a product of that
      month: selecting a month's files by substring picks that month's
      products and no other. */
  lemma MonthPatternSelects(tag: string, m: nat, month: nat, day: nat)
    requires IsTag(tag) && 1 <= m <= 12 && 1 <= month <= 12
    ensures Contains(HourlyName(tag, month, day), MonthPattern(m)) <==> m == month
  {
    if Contains(HourlyName(tag, month, day), MonthPattern(m)) {
      MonthPatternOnlyOwn(tag, m, month, day);
    }
    if m == month {
      MonthPatternFindsOwn(tag, month, day);
    }
  }

  lemma MonthPatternOnlyOwn(tag: string, m: nat, month: nat, day: nat)
    requires IsTag(tag) && 1 <= m <= 12 && 1 <= month <= 12
    requires Contains(HourlyName(tag, month, day), MonthPattern(m))
    ensures m == month
  {
    var a := Period(month) + "_hrly_" + tag + "_";
    var b := MonthPart(month, day);
    SplitAtM(tag, month, day);
    TwoDigits(m);
    TwoDigits(month);
    var s := HourlyName(tag, month, day);
    assert MonthPattern(m) == [] + ['m'] + ZeroPad(m, 2);
    var i :| 0 <= i <= |s| && OccursAt(s, MonthPattern(m), i);
    MAnchored(a, b, s, MonthPattern(m), ZeroPad(m, 2), i);
    assert b[..2] == ZeroPad(month, 2);
    ZeroPadInjective(m, month, 2);
  }

  /** An `m{MM}` pattern inside a name with a single `m` starts at that `m`. */
  lemma MAnchored(a: string, b: string, s: string, pattern: string, x: string, i: int)
    requires 'm' !in a && 'm' !in b
    requires s == a + ['m'] + b && pattern == [] + ['m'] + x && OccursAt(s, pattern, i)
    ensures |x| <= |b| && x == b[..|x|]
  {
    AnchoredAt(a, 'm', b, [], x, i);
  }

  lemma MonthPatternFindsOwn(tag: string, month: nat, day: nat)
    requires IsTag(tag) && 1 <= month <= 12
    ensures Contains(HourlyName(tag, month, day), MonthPattern(month))
  {
    var a := Period(month) + "_hrly_" + tag + "_";
    SplitAtM(tag, month, day);
    TwoDigits(month);
    var s := HourlyName(tag, month, day);
    assert s[|a|..|a| + 3] == MonthPattern(month);
    ContainsAt(s, MonthPattern(month), |a|);
  }

  /** A product name holds a variable tag exactly when it is a product of
      that variable, so "windspeed" never selects a direction file and
      "winddir" never a speed file. */
  lemma TagSelects(tag: string, other: string, month: nat, day: nat)
    requires IsTag(tag) && IsTag(other) && 1 <= month <= 12
    ensures Contains(HourlyName(other, month, day), tag) <==> tag == other
  {
    if Contains(HourlyName(other, month, day), tag) {
      TagOnlyOwn(tag, other, month, day);
    }
    if tag == other {
      TagFindsOwn(tag, month, day);
    }
  }

  lemma TagOnlyOwn(tag: string, other: string, month: nat, day: nat)
    requires IsTag(tag) && IsTag(other)
    requires Contains(HourlyName(other, month, day), tag)
    ensures tag == other
  {
    var a := Period(month) + "_hrly_";
    var b := other[1..] + Suffix(month, day);
    SplitAtW(other, month, day);
    var s := HourlyName(other, month, day);
    assert tag == [] + ['w'] + tag[1..];
    var i :| 0 <= i <= |s| && OccursAt(s, tag, i);
    AnchoredAt(a, 'w', b, [], tag[1..], i);
    if tag != other {
      TagsDiffer(tag, other, Suffix(month, day));
    }
  }

  lemma TagFindsOwn(tag: string, month: nat, day: nat)
    requires IsTag(tag)
    ensures Contains(HourlyName(tag, month, day), tag)
  {
    var a := Period(month) + "_hrly_";
    var s := HourlyName(tag, month, day);
    assert s == a + tag + Suffix(month, day);
    assert s[|a|..|a| + |tag|] == tag;
    ContainsAt(s, tag, |a|);
  }

  /** Neither tag continues into the other, whatever follows it. */
  lemma TagsDiffer(tag: string, other: string, rest: string)
    requires IsTag(tag) && IsTag(other) && tag != other
    ensures |tag| - 1 > |other[1..] + rest| || tag[1..] != (other[1..] + rest)[..|tag| - 1]
  {
    var b := other[1..] + rest;
    if |tag| - 1 <= |b| {
      assert b[3] == other[4];
      assert tag[1..][3] == tag[4];
    }
  }

  /** Distinct (tag, month, day) buckets get distinct names. */
  lemma HourlyNameInjective(t1: string, m1: nat, d1: nat, t2: string, m2: nat, d2: nat)
    requires IsTag(t1) && IsTag(t2) && 1 <= m1 <= 12 && 1 <= m2 <= 12 && d1 < 100 && d2 < 100
    requires HourlyName(t1, m1, d1) == HourlyName(t2, m2, d2)
    ensures t1 == t2 && m1 == m2 && d1 == d2
  {
    TagSelects(t1, t1, m1, d1);
    TagSelects(t1, t2, m2, d2);
    MonthPatternSelects(t1, m1, m1, d1);
    MonthPatternSelects(t2, m1, m2, d2);
    TwoDigits(d1);
    TwoDigits(d2);
    var s := HourlyName(t1, m1, d1);
    EndsWithDay(t1, m1, d1);
    EndsWithDay(t2, m2, d2);
    assert DayPart(d1) == s[|s| - 7..] == DayPart(d2);
    assert ZeroPad(d1, 2) == DayPart(d1)[2..4] && ZeroPad(d2, 2) == DayPart(d2)[2..4];
    ZeroPadInjective(d1, d2, 2);
  }
}
