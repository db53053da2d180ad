/** The names of the statistics the climatology scripts store. */
module StatKeys {
  /** A statistic a climatology dataset or percentile table can hold. */
  datatype StatKey = Mean | Median | Std | P10 | P25 | P50 | P75 | P90 | P95

  /** The variable name the statistic is stored under. */
  function Name(k: StatKey): (s: string)
    ensures |s| >= 3
  {
    match k
    case Mean => "mean"
    case Median => "median"
    case Std => "std"
    case P10 => "p10"
    case P25 => "p25"
    case P50 => "p50"
    case P75 => "p75"
    case P90 => "p90"
    case P95 => "p95"
  }

  /** Distinct statistics are stored under distinct names. */
  lemma NameInjective(a: StatKey, b: StatKey)
    requires Name(a) == Name(b)
    ensures a == b
  {
    var s := Name(a);
    assert s[0] == Name(b)[0] && s[1] == Name(b)[1] && s[2] == Name(b)[2];
  }
}
