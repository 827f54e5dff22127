/** The fixed threshold bands the dashboard applies to percentages and to
    Cramér's V. */
module Classifiers {
  import opened Counting
  import opened SurveyData

  /** An ordinal level: the descriptive results' concern level
      ('low' / 'medium' / 'high'), the population risk level and the
      barrier severity. */
  datatype Level = Low | Medium | High

  function Ordinal(l: Level): nat
  {
    match l
    case Low => 0
    case Medium => 1
    case High => 2
  }

  /** Concern level of a prevalence percentage. */
  function ConcernLevel(percentage: real): (l: Level)
    ensures l == High <==> percentage > 40.0
    ensures l == Medium <==> 25.0 < percentage <= 40.0
    ensures l == Low <==> percentage <= 25.0
  {
    if percentage > 40.0 then High else if percentage > 25.0 then Medium else Low
  }

  /** A higher percentage never has a lower concern level. */
  lemma ConcernLevelMonotone(p: real, q: real)
    requires p <= q
    ensures Ordinal(ConcernLevel(p)) <= Ordinal(ConcernLevel(q))
  {
  }

  /** Affected rate of a population column in the risk dashboard: the mean
      of its non-missing cells times 100; NaN (`None`) when every cell is
      missing. */
  function AffectedRate(df: Dataset, column: string): (rate: Option<real>)
    ensures rate.None? <==> NonMissingCount(Values(df, column)) == 0
  {
    var vals := Values(df, column);
    var count := NonMissingCount(vals);
    if count == 0 then None else Some(SumNumeric(vals) as real / count as real * 100.0)
  }

  /** Risk level of an affected population. A NaN rate fails both
      comparisons and is rated Low. */
  function RiskLevel(affectedRate: Option<real>): (l: Level)
    ensures l == High <==> affectedRate.Some? && affectedRate.value > 40.0
    ensures l == Medium <==> affectedRate.Some? && 25.0 < affectedRate.value <= 40.0
    ensures l == Low <==> affectedRate.None? || affectedRate.value <= 25.0
  {
    match affectedRate
    case None => Low
    case Some(rate) => if rate > 40.0 then High else if rate > 25.0 then Medium else Low
  }

  /** Severity of a population barrier: lower bands than the concern level.
      The rate of a binary barrier is the column mean times 100, which is
      the affected rate of the column and NaN (`None`) when every answer is
      missing; NaN fails both comparisons and is rated Low. */
  function BarrierSeverity(barrierRate: Option<real>): (l: Level)
    ensures l == High <==> barrierRate.Some? && barrierRate.value > 35.0
    ensures l == Medium <==> barrierRate.Some? && 20.0 < barrierRate.value <= 35.0
    ensures l == Low <==> barrierRate.None? || barrierRate.value <= 20.0
  {
    match barrierRate
    case None => Low
    case Some(rate) => if rate > 35.0 then High else if rate > 20.0 then Medium else Low
  }

  /** Because its bands are lower, a barrier is always rated at least as
      severe as the concern level of the same percentage, and at most one
      level more. */
  lemma BarrierSeverityDominatesConcern(p: real)
    ensures Ordinal(ConcernLevel(p)) <= Ordinal(BarrierSeverity(Some(p))) <= Ordinal(ConcernLevel(p)) + 1
  {
  }

  datatype Quality = Excellent | Good | Fair | Poor

  /** Data-quality grade of a column from its completeness percentage.
      `None` stands for NaN, the completeness of a dataset with no rows:
      every comparison with NaN is false, so it is graded Poor. */
  function DataQuality(completeness: Option<real>): (q: Quality)
    ensures q == Excellent <==> completeness.Some? && completeness.value >= 95.0
    ensures q == Good <==> completeness.Some? && 85.0 <= completeness.value < 95.0
    ensures q == Fair <==> completeness.Some? && 70.0 <= completeness.value < 85.0
    ensures q == Poor <==> completeness.None? || completeness.value < 70.0
  {
    match completeness
    case None => Poor
    case Some(pct) =>
      if pct >= 95.0 then Excellent else if pct >= 85.0 then Good else if pct >= 70.0 then Fair else Poor
  }

  /** Completeness of a column: the percentage of rows that are not missing;
      NaN (`None`) when there are no rows. */
  function Completeness(df: Dataset, column: string): (c: Option<real>)
    ensures c.None? <==> |df.rows| == 0
    ensures c.Some? ==> 0.0 <= c.value <= 100.0
    ensures c.Some? && c.value == 100.0 ==> NonMissingCount(Values(df, column)) == |df.rows|
  {
    if |df.rows| == 0 then None
    else
      var nonNull := NonMissingCount(Values(df, column));
      ShareOfTotal(nonNull, |df.rows|);
      Some(nonNull as real / |df.rows| as real * 100.0)
  }

  /** A column with no missing cell in a non-empty dataset is graded Excellent. */
  lemma FullColumnIsExcellent(df: Dataset, column: string)
    requires |df.rows| > 0
    requires Occurrences(Values(df, column), Missing) == 0
    ensures DataQuality(Completeness(df, column)) == Excellent
  {
  }

  datatype Effect = Weak | Moderate | Strong

  /** Effect size shown beside Cramér's V: `None` ("N/A") when V is absent
      or zero (a zero V is falsy in the dashboard's test); otherwise Strong
      above 0.3, Moderate (the source's "Medium") above 0.15, else Weak. */
  function EffectSize(cramersV: Option<real>): (e: Option<Effect>)
    ensures e.None? <==> cramersV.None? || cramersV.value == 0.0
    ensures e == Some(Strong) <==> cramersV.Some? && cramersV.value > 0.3
    ensures e == Some(Moderate) <==> cramersV.Some? && 0.15 < cramersV.value <= 0.3
    ensures e == Some(Weak) <==> cramersV.Some? && cramersV.value <= 0.15 && cramersV.value != 0.0
  {
    match cramersV
    case None => None
    case Some(v) =>
      if v == 0.0 then None
      else Some(if v > 0.3 then Strong else if v > 0.15 then Moderate else Weak)
  }

  /** The bands read off the squared statistic that the cross-tabulation
      stores: for V >= 0, V > 0.3 iff V^2 > 0.09 and V > 0.15 iff
      V^2 > 0.0225. */
  lemma EffectSizeFromSquare(v: real)
    requires v > 0.0
    ensures EffectSize(Some(v)) == Some(Strong) <==> v * v > 0.09
    ensures EffectSize(Some(v)) == Some(Moderate) <==> 0.0225 < v * v <= 0.09
    ensures EffectSize(Some(v)) == Some(Weak) <==> v * v <= 0.0225
  {
    SquareMonotone(v, 0.3);
    SquareMonotone(v, 0.15);
  }

  /** For non-negative x and t, x > t exactly when x * x > t * t. */
  lemma SquareMonotone(x: real, t: real)
    requires x >= 0.0 && t >= 0.0
    ensures x > t <==> x * x > t * t
  {
    var d := x - t;
    assert x * x == t * t + d * (x + t);
    if x > t {
      assert d * (x + t) > 0.0;
    } else {
      assert d * (x + t) <= 0.0;
    }
  }
}
