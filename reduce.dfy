/** The reductions over the time axis that the climatology scripts ask of
    xarray and numpy: fields as time-ordered frames of samples over a
    flattened grid, NaN as a missing sample, NaN-skipping sum, mean and
    population variance, and linear-interpolation quantiles. */
module Reduce {
  import opened Wrappers
  import opened Seqs

  /** One grid cell at one time step; `None` is NaN. */
  type Sample = Option<real>

  /** One time step of a field, the grid flattened row by row. */
  type Frame = seq<Sample>

  /** A field over time: frames in time order. */
  type Series = seq<Frame>

  /** Knots to km/h, the factor the scripts multiply wind speed by. */
  const KnotsToKmh: real := 1.852

  // ---------------------------------------------------------------------
  // Missing values

  /** The samples that are not NaN, in order. */
  function Present(xs: seq<Sample>): (r: seq<real>)
    ensures |r| <= |xs|
  {
    if xs == [] then [] else (if xs[0].Some? then [xs[0].value] else []) + Present(xs[1..])
  }

  lemma {:induction false} PresentAppend(a: seq<Sample>, b: seq<Sample>)
    ensures Present(a + b) == Present(a) + Present(b)
  {
    if a == [] {
      assert a + b == b;
    } else {
      assert (a + b)[0] == a[0];
      assert (a + b)[1..] == a[1..] + b;
      PresentAppend(a[1..], b);
    }
  }

  /** A real value survives NaN filtering exactly when it was sampled. */
  lemma {:induction false} PresentMembers(xs: seq<Sample>, x: real)
    ensures x in Present(xs) <==> Some(x) in xs
  {
    if xs != [] {
      PresentMembers(xs[1..], x);
      assert xs == [xs[0]] + xs[1..];
    }
  }

  /** Samples with no NaN keep every value. */
  lemma {:induction false} PresentAll(xs: seq<Sample>)
    requires forall i :: 0 <= i < |xs| ==> xs[i].Some?
    ensures |Present(xs)| == |xs|
    ensures forall i :: 0 <= i < |xs| ==> Present(xs)[i] == xs[i].value
  {
    if xs != [] {
      PresentAll(xs[1..]);
    }
  }

  // ---------------------------------------------------------------------
  // Sum, mean, variance

  function Sum(xs: seq<real>): real
  {
    if xs == [] then 0.0 else xs[0] + Sum(xs[1..])
  }

  lemma {:induction false} SumAppend(a: seq<real>, b: seq<real>)
    ensures Sum(a + b) == Sum(a) + Sum(b)
  {
    if a == [] {
      assert a + b == b;
    } else {
      assert (a + b)[0] == a[0];
      assert (a + b)[1..] == a[1..] + b;
      SumAppend(a[1..], b);
    }
  }

  lemma {:induction false} SumConstant(xs: seq<real>, c: real)
    requires forall i :: 0 <= i < |xs| ==> xs[i] == c
    ensures Sum(xs) == |xs| as real * c
  {
    if xs != [] {
      SumConstant(xs[1..], c);
    }
  }

  lemma {:induction false} SumNonNegative(xs: seq<real>)
    requires forall i :: 0 <= i < |xs| ==> xs[i] >= 0.0
    ensures Sum(xs) >= 0.0
  {
    if xs != [] {
      SumNonNegative(xs[1..]);
    }
  }

  /** `Sum` behind a non-recursive name: the statistics below are written
      with it, so arithmetic about them never meets a partly unfolded sum. */
  function Total(xs: seq<real>): real
  {
    Sum(xs)
  }

  /** `nansum`: the sum of the values that are not NaN (0 when all are). */
  function NanSum(xs: seq<Sample>): real
  {
    Total(Present(xs))
  }

  /** `nanmean`: NaN when every sample is NaN. */
  function NanMean(xs: seq<Sample>): Sample
  {
    var p := Present(xs);
    if p == [] then None else Some(Total(p) / |p| as real)
  }

  function SquaredDeviations(xs: seq<real>, m: real): (r: seq<real>)
    ensures |r| == |xs|
    ensures forall i :: 0 <= i < |xs| ==> r[i] == (xs[i] - m) * (xs[i] - m)
  {
    seq(|xs|, i requires 0 <= i < |xs| => (xs[i] - m) * (xs[i] - m))
  }

  /** Population variance (divisor N) of the values that are not NaN; the
      `std` statistic is its square root. */
  function NanVariance(xs: seq<Sample>): Sample
  {
    var p := Present(xs);
    if p == [] then None
    else
      var m := Total(p) / |p| as real;
      Some(Total(SquaredDeviations(p, m)) / |p| as real)
  }

  /** Every statistic of a constant sample set is that constant (the
      variance is 0), and all-NaN input gives NaN. */
  lemma ConstantStatistics(xs: seq<Sample>, c: real)
    requires |xs| > 0 && forall i :: 0 <= i < |xs| ==> xs[i] == Some(c)
    ensures NanMean(xs) == Some(c)
    ensures NanVariance(xs) == Some(0.0)
    ensures NanSum(xs) == |xs| as real * c
  {
    PresentAll(xs);
    var p := Present(xs);
    assert forall i :: 0 <= i < |p| ==> p[i] == c;
    ConstantMean(p, c);
    ConstantDeviations(p, c);
  }

  lemma ConstantMean(p: seq<real>, c: real)
    requires |p| > 0 && forall i :: 0 <= i < |p| ==> p[i] == c
    ensures Total(p) == |p| as real * c && Total(p) / |p| as real == c
  {
    SumConstant(p, c);
    CancelCount(|p| as real, c);
  }

  lemma ConstantDeviations(p: seq<real>, c: real)
    requires |p| > 0 && forall i :: 0 <= i < |p| ==> p[i] == c
    ensures Total(SquaredDeviations(p, c)) / |p| as real == 0.0
  {
    var d := SquaredDeviations(p, c);
    assert forall i :: 0 <= i < |d| ==> d[i] == 0.0;
    SumConstant(d, 0.0);
    assert Sum(d) == 0.0;
  }

  lemma CancelCount(n: real, c: real)
    requires n > 0.0
    ensures (n * c) / n == c
  {
  }

  lemma AllMissing(xs: seq<Sample>)
    requires forall i :: 0 <= i < |xs| ==> xs[i].None?
    ensures NanMean(xs).None? && NanVariance(xs).None? && NanSum(xs) == 0.0
  {
    if Present(xs) != [] {
      PresentMembers(xs, Present(xs)[0]);
    }
  }

  /** The variance is never negative. */
  lemma VarianceNonNegative(xs: seq<Sample>)
    requires NanVariance(xs).Some?
    ensures NanVariance(xs).value >= 0.0
  {
    var p := Present(xs);
    var m := Total(p) / |p| as real;
    var d := SquaredDeviations(p, m);
    forall i | 0 <= i < |d|
      ensures d[i] >= 0.0
    {
      SquareNonNegative(p[i] - m);
    }
    SumNonNegative(d);
  }

  lemma SquareNonNegative(x: real)
    ensures x * x >= 0.0
  {
  }

  // ---------------------------------------------------------------------
  // Sorting and quantiles

  predicate SortedAsc(s: seq<real>)
  {
    forall i, j :: 0 <= i < j < |s| ==> s[i] <= s[j]
  }

  function Insert(x: real, s: seq<real>): (r: seq<real>)
    requires SortedAsc(s)
    ensures SortedAsc(r) && multiset(r) == multiset(s) + multiset{x}
    ensures |r| == |s| + 1 && (r[0] == x || (s != [] && r[0] == s[0]))
  {
    if s == [] then [x]
    else if x <= s[0] then
      ConsSorted(x, s);
      [x] + s
    else
      assert s == [s[0]] + s[1..];
      var t := Insert(x, s[1..]);
      ConsSorted(s[0], t);
      [s[0]] + t
  }

  /** A value no larger than the head of a sorted sequence extends it. */
  lemma ConsSorted(h: real, t: seq<real>)
    requires SortedAsc(t) && (t == [] || h <= t[0])
    ensures SortedAsc([h] + t)
  {
    var r := [h] + t;
    forall i, j | 0 <= i < j < |r|
      ensures r[i] <= r[j]
    {
      assert r[j] == t[j - 1];
      if i > 0 {
        assert r[i] == t[i - 1];
      } else {
        assert t[0] <= t[j - 1];
      }
    }
  }

  /** The values in ascending order: a sorted permutation of the input. */
  function SortAsc(s: seq<real>): (r: seq<real>)
    ensures SortedAsc(r) && multiset(r) == multiset(s)
    ensures |r| == |s|
  {
    if s == [] then []
    else
      assert s == [s[0]] + s[1..];
      Insert(s[0], SortAsc(s[1..]))
  }

  /** A sorted sequence is determined by its multiset of values, so sorting
      makes the order of the input irrelevant. */
  lemma {:induction false} SortedUnique(a: seq<real>, b: seq<real>)
    requires SortedAsc(a) && SortedAsc(b) && multiset(a) == multiset(b)
    ensures a == b
    decreases |a|
  {
    assert |a| == |multiset(a)| == |multiset(b)| == |b|;
    if a != [] {
      SameHead(a, b);
      SortedUnique(a[1..], b[1..]);
      assert a == [a[0]] + a[1..] && b == [b[0]] + b[1..];
    }
  }

  /** Two sorted arrangements of the same values start alike and go on
      with the same remaining values. */
  lemma SameHead(a: seq<real>, b: seq<real>)
    requires SortedAsc(a) && SortedAsc(b) && multiset(a) == multiset(b) && a != [] && b != []
    ensures a[0] == b[0] && multiset(a[1..]) == multiset(b[1..])
    ensures SortedAsc(a[1..]) && SortedAsc(b[1..])
  {
    assert a[0] in multiset(b) && b[0] in multiset(a);
    SortedHeadIsLeast(a, b[0]);
    SortedHeadIsLeast(b, a[0]);
    assert a == [a[0]] + a[1..] && b == [b[0]] + b[1..];
    assert multiset(a[1..]) == multiset(a) - multiset{a[0]};
    assert multiset(b[1..]) == multiset(b) - multiset{b[0]};
    SortedTail(a);
    SortedTail(b);
  }

  lemma SortedTail(a: seq<real>)
    requires SortedAsc(a) && a != []
    ensures SortedAsc(a[1..])
  {
  }

  /** The head of a sorted sequence is at most any of its values. */
  lemma SortedHeadIsLeast(a: seq<real>, y: real)
    requires SortedAsc(a) && y in multiset(a)
    ensures a[0] <= y
  {
    var i :| 0 <= i < |a| && a[i] == y;
    assert a[0] <= a[i];
  }

  lemma SortOrderIndependent(a: seq<real>, b: seq<real>)
    requires multiset(a) == multiset(b)
    ensures SortAsc(a) == SortAsc(b)
  {
    SortedUnique(SortAsc(a), SortAsc(b));
  }

  lemma ScaleUnit(f: real, d: real)
    requires 0.0 <= f <= 1.0 && d >= 0.0
    ensures 0.0 <= d * f <= d
  {
  }

  lemma ScaleMonotone(f1: real, f2: real, d: real)
    requires f1 <= f2 && d >= 0.0
    ensures d * f1 <= d * f2
  {
  }

  /** The virtual index `(n - 1) * p` of numpy's linear method. */
  function VirtualIndex(n: nat, p: real): (h: real)
    requires n > 0 && 0.0 <= p <= 1.0
    ensures 0.0 <= h <= (n - 1) as real
  {
    ScaleUnit(p, (n - 1) as real);
    (n - 1) as real * p
  }

  /** The point a fraction `f` of the way from `a` to `b`. */
  function Lerp(a: real, b: real, f: real): real
  {
    a + (b - a) * f
  }

  lemma LerpBetween(a: real, b: real, f: real)
    requires a <= b && 0.0 <= f <= 1.0
    ensures a <= Lerp(a, b, f) <= b
  {
    var d := b - a;
    ScaleUnit(f, d);
    assert Lerp(a, b, f) == a + d * f;
  }

  lemma LerpMonotone(a: real, b: real, f1: real, f2: real)
    requires a <= b && f1 <= f2
    ensures Lerp(a, b, f1) <= Lerp(a, b, f2)
  {
    ScaleMonotone(f1, f2, b - a);
  }

  /** The order statistic below the virtual index. */
  function Below(n: nat, p: real): (lo: nat)
    requires n > 0 && 0.0 <= p <= 1.0
    ensures lo < n
  {
    VirtualIndex(n, p).Floor
  }

  /** The order statistic above the virtual index (the last one at p = 1). */
  function Above(n: nat, p: real): (hi: nat)
    requires n > 0 && 0.0 <= p <= 1.0
    ensures Below(n, p) <= hi < n
  {
    var lo := Below(n, p);
    if lo + 1 < n then lo + 1 else lo
  }

  /** The quantile of ascending values `s` at probability `p` by linear
      interpolation between the two order statistics around `(n - 1) * p`
      (numpy's and xarray's default method). */
  function QuantileSorted(s: seq<real>, p: real): real
    requires |s| > 0 && 0.0 <= p <= 1.0
  {
    var n := |s|;
    Lerp(s[Below(n, p)], s[Above(n, p)], VirtualIndex(n, p) - Below(n, p) as real)
  }

  /** A quantile lies between the order statistics it interpolates, hence
      between the smallest and the largest value. */
  lemma QuantileBetween(s: seq<real>, p: real)
    requires |s| > 0 && 0.0 <= p <= 1.0 && SortedAsc(s)
    ensures s[Below(|s|, p)] <= QuantileSorted(s, p) <= s[Above(|s|, p)]
    ensures s[0] <= QuantileSorted(s, p) <= s[|s| - 1]
  {
    var n := |s|;
    var lo, hi := Below(n, p), Above(n, p);
    LerpBetween(s[lo], s[hi], VirtualIndex(n, p) - lo as real);
  }

  lemma VirtualIndexMonotone(n: nat, p1: real, p2: real)
    requires n > 0 && 0.0 <= p1 <= p2 <= 1.0
    ensures VirtualIndex(n, p1) <= VirtualIndex(n, p2)
    ensures Below(n, p1) <= Below(n, p2)
  {
    ScaleMonotone(p1, p2, (n - 1) as real);
  }

  /** Quantiles of the same values never decrease as the probability
      grows: p10 <= p25 <= median <= p75 <= p90 <= p95. */
  lemma QuantileMonotone(s: seq<real>, p1: real, p2: real)
    requires |s| > 0 && 0.0 <= p1 <= p2 <= 1.0 && SortedAsc(s)
    ensures QuantileSorted(s, p1) <= QuantileSorted(s, p2)
  {
    var n := |s|;
    VirtualIndexMonotone(n, p1, p2);
    QuantileBetween(s, p1);
    QuantileBetween(s, p2);
    var lo1, lo2 := Below(n, p1), Below(n, p2);
    if lo1 == lo2 {
      LerpMonotone(s[lo1], s[Above(n, p1)], VirtualIndex(n, p1) - lo1 as real, VirtualIndex(n, p2) - lo2 as real);
    } else {
      assert Above(n, p1) <= lo2;
    }
  }

  /** `nanquantile`: NaN when every sample is NaN. */
  function NanQuantile(xs: seq<Sample>, p: real): Sample
    requires 0.0 <= p <= 1.0
  {
    var v := Present(xs);
    if v == [] then None else Some(QuantileSorted(SortAsc(v), p))
  }

  /** `nanmedian`: the quantile at 1/2. */
  function NanMedian(xs: seq<Sample>): Sample
  {
    NanQuantile(xs, 0.5)
  }

  /** NaN-skipping quantiles of one cell are ordered by probability and lie
      within the range of the values. */
  lemma NanQuantileOrdered(xs: seq<Sample>, p1: real, p2: real)
    requires 0.0 <= p1 <= p2 <= 1.0
    ensures NanQuantile(xs, p1).Some? <==> NanQuantile(xs, p2).Some?
    ensures NanQuantile(xs, p1).Some? ==> NanQuantile(xs, p1).value <= NanQuantile(xs, p2).value
  {
    var v := Present(xs);
    if v != [] {
      QuantileMonotone(SortAsc(v), p1, p2);
    }
  }

  /** A constant cell has every quantile equal to the constant. */
  lemma ConstantQuantile(xs: seq<Sample>, c: real, p: real)
    requires |xs| > 0 && forall i :: 0 <= i < |xs| ==> xs[i] == Some(c)
    requires 0.0 <= p <= 1.0
    ensures NanQuantile(xs, p) == Some(c)
  {
    PresentAll(xs);
    var v := Present(xs);
    var s := SortAsc(v);
    SortedConstantEnds(v, s, c);
    QuantileBetween(s, p);
  }

  /** An arrangement of values all equal to `c` starts and ends with `c`. */
  lemma SortedConstantEnds(v: seq<real>, s: seq<real>, c: real)
    requires forall i :: 0 <= i < |v| ==> v[i] == c
    requires multiset(s) == multiset(v) && |s| > 0
    ensures s[0] == c && s[|s| - 1] == c
  {
    assert s[0] in multiset(v);
    assert s[|s| - 1] in multiset(v);
  }

  // ---------------------------------------------------------------------
  // Fields over time

  /** Every frame covers the same `width` cells (the grid never changes
      within a run). */
  predicate Rectangular(series: Series, width: nat)
  {
    forall t :: 0 <= t < |series| ==> |series[t]| == width
  }

  /** Fields on one grid concatenate to a field on that grid. */
  lemma {:induction false} FlattenRectangular(xss: seq<Series>, width: nat)
    requires forall i :: 0 <= i < |xss| ==> Rectangular(xss[i], width)
    ensures Rectangular(Flatten(xss), width)
  {
    if xss != [] {
      FlattenRectangular(xss[..|xss| - 1], width);
    }
  }

  /** The samples of cell `c` through time. */
  function Column(series: Series, c: nat): (col: seq<Sample>)
    requires forall t :: 0 <= t < |series| ==> c < |series[t]|
    ensures |col| == |series|
  {
    seq(|series|, t requires 0 <= t < |series| => series[t][c])
  }

  lemma ColumnAppend(a: Series, b: Series, c: nat)
    requires forall t :: 0 <= t < |a| ==> c < |a[t]|
    requires forall t :: 0 <= t < |b| ==> c < |b[t]|
    ensures Column(a + b, c) == Column(a, c) + Column(b, c)
  {
  }

  /** Reduce every cell over the time axis (`da.<stat>(dim="time")`). */
  function OverTime(series: Series, width: nat, stat: seq<Sample> -> Sample): (r: Frame)
    requires Rectangular(series, width)
    ensures |r| == width
  {
    seq(width, c requires 0 <= c < width => stat(Column(series, c)))
  }

  function SumSample(xs: seq<Sample>): Sample
  {
    Some(NanSum(xs))
  }

  function MedianSample(xs: seq<Sample>): Sample
  {
    NanMedian(xs)
  }

  function QuantileSample(p: real): seq<Sample> -> Sample
    requires 0.0 <= p <= 1.0
  {
    xs => NanQuantile(xs, p)
  }

  /** One sample multiplied by `factor`; NaN stays NaN. */
  function ScaleSample(x: Sample, factor: real): (y: Sample)
    ensures y.Some? <==> x.Some?
    ensures y.Some? ==> y.value == x.value * factor
  {
    if x.Some? then Some(x.value * factor) else None
  }

  /** Every sample of every frame multiplied by `factor` (`da * factor`). */
  function Scale(series: Series, factor: real): (r: Series)
    ensures |r| == |series|
    ensures forall t :: 0 <= t < |series| ==> |r[t]| == |series[t]|
    ensures forall t, c :: 0 <= t < |series| && 0 <= c < |series[t]| ==>
              r[t][c] == ScaleSample(series[t][c], factor)
  {
    seq(|series|, t requires 0 <= t < |series| =>
      seq(|series[t]|, c requires 0 <= c < |series[t]| => ScaleSample(series[t][c], factor)))
  }

  lemma ScaleAppend(a: Series, b: Series, factor: real)
    ensures Scale(a + b, factor) == Scale(a, factor) + Scale(b, factor)
  {
  }

  /** Every sample of a sequence multiplied by `factor`. */
  function ScaleSamples(xs: seq<Sample>, factor: real): (r: seq<Sample>)
    ensures |r| == |xs|
  {
    seq(|xs|, i requires 0 <= i < |xs| => ScaleSample(xs[i], factor))
  }

  function ScaleReals(xs: seq<real>, factor: real): (r: seq<real>)
    ensures |r| == |xs|
  {
    seq(|xs|, i requires 0 <= i < |xs| => xs[i] * factor)
  }

  /** A cell of a scaled series is the scaled cell. */
  lemma ColumnScale(series: Series, factor: real, c: nat)
    requires forall t :: 0 <= t < |series| ==> c < |series[t]|
    ensures forall t :: 0 <= t < |Scale(series, factor)| ==> c < |Scale(series, factor)[t]|
    ensures Column(Scale(series, factor), c) == ScaleSamples(Column(series, c), factor)
  {
  }

  lemma ScaleRealsSplit(xs: seq<real>, k: nat, factor: real)
    requires k <= |xs|
    ensures ScaleReals(xs, factor) == ScaleReals(xs[..k], factor) + ScaleReals(xs[k..], factor)
  {
    var r, a, b := ScaleReals(xs, factor), ScaleReals(xs[..k], factor), ScaleReals(xs[k..], factor);
    forall i | 0 <= i < |r|
      ensures r[i] == (a + b)[i]
    {
      if i >= k {
        assert b[i - k] == xs[k..][i - k] * factor;
      }
    }
  }

  /** Scaling commutes with dropping NaN. */
  lemma {:induction false} PresentScale(xs: seq<Sample>, factor: real)
    ensures Present(ScaleSamples(xs, factor)) == ScaleReals(Present(xs), factor)
  {
    if xs != [] {
      var s := ScaleSamples(xs, factor);
      assert s[1..] == ScaleSamples(xs[1..], factor);
      PresentScale(xs[1..], factor);
      var p := Present(xs);
      var k := if xs[0].Some? then 1 else 0;
      assert p[..k] == (if xs[0].Some? then [xs[0].value] else []);
      assert p[k..] == Present(xs[1..]);
      ScaleRealsSplit(p, k, factor);
      if xs[0].Some? {
        assert s[0].Some? && s[0].value == xs[0].value * factor;
        assert ScaleReals(p[..k], factor)[0] == s[0].value;
        assert ScaleReals(p[..k], factor) == [s[0].value];
      } else {
        assert ScaleReals(p[..k], factor) == [];
      }
    }
  }

  lemma {:induction false} SumScale(xs: seq<real>, factor: real)
    ensures Sum(ScaleReals(xs, factor)) == factor * Sum(xs)
  {
    if xs != [] {
      ScaleRealsSplit(xs, 1, factor);
      SumScale(xs[1..], factor);
    }
  }

  lemma DivScale(a: real, f: real, n: real, t: real)
    requires n > 0.0 && t == f * a
    ensures t / n == (a / n) * f
  {
    var m := a / n;
    assert a == m * n;
    assert f * a == (m * f) * n;
  }

  /** The NaN-skipping mean of scaled samples is the scaled mean. */
  lemma MeanScale(xs: seq<Sample>, factor: real)
    ensures NanMean(ScaleSamples(xs, factor)) == ScaleSample(NanMean(xs), factor)
  {
    PresentScale(xs, factor);
    var p, ps := Present(xs), Present(ScaleSamples(xs, factor));
    if p != [] {
      assert |ps| == |p|;
      var m, t := Total(p) / |p| as real, Total(ps) / |p| as real;
      MeanReals(p, factor);
      ScaleSome(m, t, factor);
      assert NanMean(ScaleSamples(xs, factor)) == Some(t);
      assert NanMean(xs) == Some(m);
    }
  }

  lemma MeanReals(p: seq<real>, factor: real)
    requires p != []
    ensures Total(ScaleReals(p, factor)) / |p| as real == (Total(p) / |p| as real) * factor
  {
    SumScale(p, factor);
    MeanOfScaled(Total(p), Total(ScaleReals(p, factor)), |p|, factor);
  }

  lemma ScaleSome(m: real, t: real, factor: real)
    requires t == m * factor
    ensures ScaleSample(Some(m), factor) == Some(t)
  {
    var y := ScaleSample(Some(m), factor);
    assert y.Some? && y.value == t;
  }

  lemma MeanOfScaled(s: real, t: real, n: nat, factor: real)
    requires n > 0 && t == factor * s
    ensures t / n as real == (s / n as real) * factor
  {
    DivScale(s, factor, n as real, t);
  }

  /** The time-sum of a concatenation is the sum of the parts' time-sums,
      and does not depend on the order of the parts. */
  lemma SumOverConcat(a: Series, b: Series, width: nat)
    requires Rectangular(a, width) && Rectangular(b, width)
    ensures Rectangular(a + b, width) && Rectangular(b + a, width)
    ensures forall c :: 0 <= c < width ==>
      OverTime(a + b, width, SumSample)[c] == Some(NanSum(Column(a, c)) + NanSum(Column(b, c)))
    ensures OverTime(a + b, width, SumSample) == OverTime(b + a, width, SumSample)
  {
    forall c | 0 <= c < width
      ensures OverTime(a + b, width, SumSample)[c] == Some(NanSum(Column(a, c)) + NanSum(Column(b, c)))
      ensures OverTime(a + b, width, SumSample)[c] == OverTime(b + a, width, SumSample)[c]
    {
      assert OverTime(a + b, width, SumSample)[c] == SumSample(Column(a + b, c));
      assert OverTime(b + a, width, SumSample)[c] == SumSample(Column(b + a, c));
      ColumnAppend(a, b, c);
      ColumnAppend(b, a, c);
      PresentAppend(Column(a, c), Column(b, c));
      PresentAppend(Column(b, c), Column(a, c));
      SumAppend(Present(Column(a, c)), Present(Column(b, c)));
      SumAppend(Present(Column(b, c)), Present(Column(a, c)));
    }
  }

  /** The time-mean of a concatenation does not depend on the order of the
      parts. */
  lemma MeanOrderIndependent(a: Series, b: Series, width: nat)
    requires Rectangular(a, width) && Rectangular(b, width)
    ensures Rectangular(a + b, width) && Rectangular(b + a, width)
    ensures OverTime(a + b, width, NanMean) == OverTime(b + a, width, NanMean)
  {
    forall c | 0 <= c < width
      ensures NanMean(Column(a + b, c)) == NanMean(Column(b + a, c))
    {
      ColumnAppend(a, b, c);
      ColumnAppend(b, a, c);
      PresentAppend(Column(a, c), Column(b, c));
      PresentAppend(Column(b, c), Column(a, c));
      SumAppend(Present(Column(a, c)), Present(Column(b, c)));
      SumAppend(Present(Column(b, c)), Present(Column(a, c)));
    }
  }

  /** The time-quantiles of a concatenation do not depend on the order of
      the parts. */
  lemma QuantileOrderIndependent(a: Series, b: Series, width: nat, p: real)
    requires Rectangular(a, width) && Rectangular(b, width) && 0.0 <= p <= 1.0
    ensures Rectangular(a + b, width) && Rectangular(b + a, width)
    ensures OverTime(a + b, width, QuantileSample(p)) == OverTime(b + a, width, QuantileSample(p))
  {
    forall c | 0 <= c < width
      ensures NanQuantile(Column(a + b, c), p) == NanQuantile(Column(b + a, c), p)
    {
      ColumnAppend(a, b, c);
      ColumnAppend(b, a, c);
      PresentAppend(Column(a, c), Column(b, c));
      PresentAppend(Column(b, c), Column(a, c));
      SortOrderIndependent(Present(Column(a + b, c)), Present(Column(b + a, c)));
    }
  }
}
