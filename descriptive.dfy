/** `calculate_descriptive_stats`: for each outcome column of an indicator
    set, the number of answers, the prevalence percentage and its concern
    level; the results are then stable-sorted by percentage and ranked. */
module Descriptive {
  import opened Counting
  import opened Text
  import opened SurveyData
  import opened Classifiers
  import opened Ranking

  /** The `indicator_set` argument; any other string selects no column. */
  datatype IndicatorSet = Set1 | Set2 | Set3 | Set4 | Set5 | OtherSet

  /** `part / total * 100` when there are answers, else 0. */
  function Percentage(part: int, total: nat): real
  {
    if total > 0 then part as real / total as real * 100.0 else 0.0
  }

  /** A part of the total is between 0 and 100 percent of it, and is that
      share of it: the percentage times the total is 100 times the part.
      With no answers the percentage is 0. */
  lemma PercentageBounds(part: int, total: nat)
    requires 0 <= part <= total
    ensures 0.0 <= Percentage(part, total) <= 100.0
    ensures total > 0 ==> Percentage(part, total) * total as real == part as real * 100.0
    ensures total == 0 ==> Percentage(part, total) == 0.0
  {
    if total > 0 {
      var q := part as real / total as real;
      assert q * total as real == part as real;
      assert 0.0 <= q <= 1.0;
    }
  }

  /** The answers counted as concerning in a categorical column. */
  const ConcerningValues: seq<Value> := [
    Label("Very concerned"), Label("Extremely concerned"), Label("Significant disruptions"),
    Label("Frequently"), Label("Almost always"), Label("Significant decline")]

  /** `value_counts().to_dict()`: each non-missing value to its number of
      occurrences. */
  function ValueCounts(vals: seq<Value>): (counts: map<Value, nat>)
    ensures forall v :: v in counts <==> v in vals && v != Missing
    ensures forall v :: v in counts ==> counts[v] == Occurrences(vals, v)
  {
    map v | v in vals && v != Missing :: Occurrences(vals, v)
  }

  /** `counts.get(v, 0)`. */
  function CountOf(counts: map<Value, nat>, v: Value): nat
  {
    if v in counts then counts[v] else 0
  }

  /** `sum(counts.get(v, 0) for v in keys)`. */
  function SumOfCounts(counts: map<Value, nat>, keys: seq<Value>): nat
  {
    if keys == [] then 0
    else SumOfCounts(counts, keys[..|keys| - 1]) + CountOf(counts, keys[|keys| - 1])
  }

  /** Summing the value counts over distinct keys counts the cells holding
      one of those keys. */
  lemma {:induction false} SumOfValueCounts(vals: seq<Value>, keys: seq<Value>)
    requires IsDistinct(keys)
    requires Missing !in keys
    ensures SumOfCounts(ValueCounts(vals), keys) == CountIn(vals, Elements(keys))
  {
    if keys == [] {
      assert Elements(keys) == {};
      CountInNone(vals);
    } else {
      var init, k := keys[..|keys| - 1], keys[|keys| - 1];
      SumOfValueCounts(vals, init);
      assert Elements(keys) == Elements(init) + {k};
      assert k !in Elements(init);
      CountInAddKey(vals, Elements(init), k);
      assert CountOf(ValueCounts(vals), k) == Occurrences(vals, k);
    }
  }

  /** The per-label counts add up to the number of answers, in whatever
      order their labels are listed. */
  lemma CategoriesSumToTotal(vals: seq<Value>, keys: seq<Value>)
    requires IsDistinct(keys)
    requires Elements(keys) == ValueCounts(vals).Keys
    ensures SumOfCounts(ValueCounts(vals), keys) == NonMissingCount(vals)
  {
    assert Missing !in Elements(keys);
    SumOfValueCounts(vals, keys);
    CountInNonMissing(vals, Elements(keys));
  }

  /** The result for a column treated as a 0/1 indicator. */
  function BinaryResult(df: Dataset, column: string, name: string, category: Category): DescriptiveResult
  {
    var vals := Values(df, column);
    var total := NonMissingCount(vals);
    var positive := SumNumeric(vals);
    var percentage := Percentage(positive, total);
    DescriptiveResult(column, name, category, Binary, total, Positive(positive),
                      percentage, ConcernLevel(percentage), 0, None)
  }

  /** The result for a column of labels: the percentage of answers that are
      concerning. */
  function CategoricalResult(df: Dataset, column: string, name: string): DescriptiveResult
  {
    var vals := Values(df, column);
    var total := NonMissingCount(vals);
    var counts := ValueCounts(vals);
    var percentage := Percentage(SumOfCounts(counts, ConcerningValues), total);
    DescriptiveResult(column, name, Outcome, Categorical, total, Categories(counts),
                      percentage, ConcernLevel(percentage), 0, None)
  }

  /** What every result promises about its column. */
  ghost predicate ResultFacts(df: Dataset, r: DescriptiveResult)
  {
    var vals := Values(df, r.variable);
    && r.total == NonMissingCount(vals)
    && r.concern == ConcernLevel(r.percentage)
    && (r.total == 0 ==> r.percentage == 0.0 && r.concern == Low)
    && (r.kind == Binary <==> r.breakdown.Positive?)
    && (r.breakdown.Positive? ==>
          && r.breakdown.positive == SumNumeric(vals)
          && (r.total > 0 ==> r.percentage == r.breakdown.positive as real / r.total as real * 100.0)
          && (BinaryValued(vals) ==>
                r.breakdown.positive == Occurrences(vals, Num(1)) && 0.0 <= r.percentage <= 100.0))
    && (r.breakdown.Categories? ==>
          && r.breakdown.counts == ValueCounts(vals)
          && (r.total > 0 ==>
                r.percentage == CountIn(vals, Elements(ConcerningValues)) as real / r.total as real * 100.0)
          && 0.0 <= r.percentage <= 100.0)
  }

  lemma BinaryResultFacts(df: Dataset, column: string, name: string, category: Category)
    ensures ResultFacts(df, BinaryResult(df, column, name, category))
  {
    var vals := Values(df, column);
    if BinaryValued(vals) {
      SumOfBinaryCountsOnes(vals);
      PercentageBounds(SumNumeric(vals), NonMissingCount(vals));
    }
  }

  lemma CategoricalResultFacts(df: Dataset, column: string, name: string)
    ensures ResultFacts(df, CategoricalResult(df, column, name))
  {
    var vals := Values(df, column);
    var concerning := Elements(ConcerningValues);
    assert Missing !in ConcerningValues;
    SumOfValueCounts(vals, ConcerningValues);
    CountInNonMissing(vals, concerning);
    PercentageBounds(CountIn(vals, concerning), NonMissingCount(vals));
  }

  /** The risk dashboard rates a population column exactly as the
      descriptive statistics rate its concern level. */
  lemma RiskLevelMatchesConcern(df: Dataset, column: string, name: string)
    ensures RiskLevel(AffectedRate(df, column)) == BinaryResult(df, column, name, PopulationsMostAffected).concern
  {
  }

  /** Ten respondents, six of whom answer 1 to a binary outcome: the
      result counts 6 of 10 answers, 60 percent, a high concern. */
  lemma SixOfTenIsHighConcern()
    ensures var ones: Row := map["X" := Num(1)];
      var zeros: Row := map["X" := Num(0)];
      var df := Dataset([Column("X", Binary)], [ones, ones, ones, ones, ones, ones, zeros, zeros, zeros, zeros]);
      var r := BinaryResult(df, "X", "X", Outcome);
      r.total == 10 && r.breakdown == Positive(6) && r.percentage == 60.0 && r.concern == High
  {
    var ones: Row := map["X" := Num(1)];
    var zeros: Row := map["X" := Num(0)];
    var df := Dataset([Column("X", Binary)], [ones, ones, ones, ones, ones, ones, zeros, zeros, zeros, zeros]);
    var vals := Values(df, "X");
    assert vals == [Num(1), Num(1), Num(1), Num(1), Num(1), Num(1), Num(0), Num(0), Num(0), Num(0)];
    // SumNumeric is defined from the end: unfold it one prefix at a time.
    assert vals[..1][..0] == vals[..0] && SumNumeric(vals[..1]) == 1;
    assert vals[..2][..1] == vals[..1] && SumNumeric(vals[..2]) == 2;
    assert vals[..3][..2] == vals[..2] && SumNumeric(vals[..3]) == 3;
    assert vals[..4][..3] == vals[..3] && SumNumeric(vals[..4]) == 4;
    assert vals[..5][..4] == vals[..4] && SumNumeric(vals[..5]) == 5;
    assert vals[..6][..5] == vals[..5] && SumNumeric(vals[..6]) == 6;
    assert vals[..7][..6] == vals[..6] && SumNumeric(vals[..7]) == 6;
    assert vals[..8][..7] == vals[..7] && SumNumeric(vals[..8]) == 6;
    assert vals[..9][..8] == vals[..8] && SumNumeric(vals[..9]) == 6;
    assert vals[..9] == vals[..|vals| - 1];
    assert NonMissingCount(vals) == 10;
  }

  /** Indicator set 1's service-disruption columns: `Q9_...` except the
      "no disruptions" answer. */
  predicate IsServiceColumn(column: string)
  {
    StartsWith(column, "Q9_") && !Contains(column, "No_disruptions")
  }

  /** Indicator set 1's affected-population columns. */
  predicate IsPopulationColumn(column: string)
  {
    StartsWith(column, "Q10_Pop_")
  }

  /** The column-name prefixes that select the outcome columns of the other
      indicator sets. */
  function OutcomePrefixes(indicatorSet: IndicatorSet): seq<string>
  {
    match indicatorSet
    case Set2 => ["Q21", "Q22", "Q23", "Q27", "Q28"]
    case Set3 => ["Q27", "Q23", "Q30"]
    case Set4 => ["Q11", "Q12", "Q13", "Q15"]
    case Set5 => ["Q18", "Q19"]
    case _ => []
  }

  function ServiceName(column: string): string
  {
    ReplaceAll(ReplaceAll(column, "Q9_", ""), "_", " ")
  }

  function PopulationName(column: string): string
  {
    ReplaceAll(ReplaceAll(column, "Q10_Pop_", ""), "_", " ")
  }

  function OutcomeName(column: string): string
  {
    ReplaceAll(column, "_", " ")
  }

  /** Display names never contain an underscore. */
  lemma DisplayNamesHaveNoUnderscore(column: string)
    ensures '_' !in ServiceName(column)
    ensures '_' !in PopulationName(column)
    ensures '_' !in OutcomeName(column)
  {
    ReplaceCharRemovesIt(ReplaceAll(column, "Q9_", ""), '_', " ");
    ReplaceCharRemovesIt(ReplaceAll(column, "Q10_Pop_", ""), '_', " ");
    ReplaceCharRemovesIt(column, '_', " ");
  }

  /** The service-disruption results of the columns `cols`, in column order. */
  function ServiceResults(df: Dataset, cols: seq<Column>): (rs: seq<DescriptiveResult>)
    ensures |rs| <= |cols|
    ensures forall i :: 0 <= i < |rs| ==> IsUnranked(rs[i]) && rs[i].category == ServiceDisruptions
  {
    if cols == [] then []
    else
      var column := cols[|cols| - 1].name;
      ServiceResults(df, cols[..|cols| - 1]) +
        (if IsServiceColumn(column) then [BinaryResult(df, column, ServiceName(column), ServiceDisruptions)] else [])
  }

  /** The affected-population results of the columns `cols`, in column order. */
  function PopulationResults(df: Dataset, cols: seq<Column>): (rs: seq<DescriptiveResult>)
    ensures |rs| <= |cols|
    ensures forall i :: 0 <= i < |rs| ==> IsUnranked(rs[i]) && rs[i].category == PopulationsMostAffected
  {
    if cols == [] then []
    else
      var column := cols[|cols| - 1].name;
      PopulationResults(df, cols[..|cols| - 1]) +
        (if IsPopulationColumn(column) then [BinaryResult(df, column, PopulationName(column), PopulationsMostAffected)] else [])
  }

  /** The result of an outcome column of indicator sets 2 to 5, by its kind. */
  function OutcomeResult(df: Dataset, col: Column): DescriptiveResult
  {
    if col.kind == Binary then BinaryResult(df, col.name, OutcomeName(col.name), Outcome)
    else CategoricalResult(df, col.name, OutcomeName(col.name))
  }

  /** The results of the columns of `cols` that start with one of `prefixes`. */
  function OutcomeResults(df: Dataset, cols: seq<Column>, prefixes: seq<string>): (rs: seq<DescriptiveResult>)
    ensures |rs| <= |cols|
    ensures forall i :: 0 <= i < |rs| ==> IsUnranked(rs[i]) && rs[i].category == Outcome
  {
    if cols == [] then []
    else
      var col := cols[|cols| - 1];
      OutcomeResults(df, cols[..|cols| - 1], prefixes) +
        (if StartsWithAny(col.name, prefixes) then [OutcomeResult(df, col)] else [])
  }

  lemma {:induction false} ServiceResultsFacts(df: Dataset, cols: seq<Column>)
    ensures forall i :: 0 <= i < |ServiceResults(df, cols)| ==> ResultFacts(df, ServiceResults(df, cols)[i])
  {
    if cols != [] {
      var column := cols[|cols| - 1].name;
      ServiceResultsFacts(df, cols[..|cols| - 1]);
      BinaryResultFacts(df, column, ServiceName(column), ServiceDisruptions);
    }
  }

  lemma {:induction false} PopulationResultsFacts(df: Dataset, cols: seq<Column>)
    ensures forall i :: 0 <= i < |PopulationResults(df, cols)| ==> ResultFacts(df, PopulationResults(df, cols)[i])
  {
    if cols != [] {
      var column := cols[|cols| - 1].name;
      PopulationResultsFacts(df, cols[..|cols| - 1]);
      BinaryResultFacts(df, column, PopulationName(column), PopulationsMostAffected);
    }
  }

  lemma {:induction false} OutcomeResultsFacts(df: Dataset, cols: seq<Column>, prefixes: seq<string>)
    ensures forall i :: 0 <= i < |OutcomeResults(df, cols, prefixes)| ==>
      ResultFacts(df, OutcomeResults(df, cols, prefixes)[i])
  {
    if cols != [] {
      var col := cols[|cols| - 1];
      OutcomeResultsFacts(df, cols[..|cols| - 1], prefixes);
      BinaryResultFacts(df, col.name, OutcomeName(col.name), Outcome);
      CategoricalResultFacts(df, col.name, OutcomeName(col.name));
    }
  }

  /** Selecting the service-disruption results distributes over concatenation of the columns, so the
      results follow column order. */
  lemma {:induction false} ServiceResultsAppend(df: Dataset, a: seq<Column>, b: seq<Column>)
    ensures ServiceResults(df, a + b) == ServiceResults(df, a) + ServiceResults(df, b)
  {
    if b == [] {
      assert a + b == a;
    } else {
      ServiceResultsAppend(df, a, b[..|b| - 1]);
      assert (a + b)[..|a + b| - 1] == a + b[..|b| - 1];
    }
  }

  /** `r` is the result the column `col` yields as a service-disruption column: its name starts with `Q9_` and does not contain `No_disruptions`. */
  predicate YieldsService(df: Dataset, col: Column, r: DescriptiveResult)
  {
    IsServiceColumn(col.name) && r == BinaryResult(df, col.name, ServiceName(col.name), ServiceDisruptions)
  }

  /** Every selected result is the result of one of the columns. */
  lemma {:induction false} ServiceResultsSound(df: Dataset, cols: seq<Column>, r: DescriptiveResult)
    ensures r in ServiceResults(df, cols) ==> exists k :: 0 <= k < |cols| && YieldsService(df, cols[k], r)
  {
    if cols != [] {
      var init := cols[..|cols| - 1];
      ServiceResultsSound(df, init, r);
      if r in ServiceResults(df, init) {
        var k :| 0 <= k < |init| && YieldsService(df, init[k], r);
        assert cols[k] == init[k];
      } else if r in ServiceResults(df, cols) {
        assert YieldsService(df, cols[|cols| - 1], r);
      }
    }
  }

  /** Every column of that kind contributes its result. */
  lemma {:induction false} ServiceResultsComplete(df: Dataset, cols: seq<Column>, r: DescriptiveResult)
    ensures (exists k :: 0 <= k < |cols| && YieldsService(df, cols[k], r)) ==> r in ServiceResults(df, cols)
  {
    if cols != [] {
      var init := cols[..|cols| - 1];
      ServiceResultsComplete(df, init, r);
      if exists k :: 0 <= k < |cols| && YieldsService(df, cols[k], r) {
        var k :| 0 <= k < |cols| && YieldsService(df, cols[k], r);
        if k < |init| {
          assert init[k] == cols[k];
        }
      }
    }
  }

  /** A result is selected exactly when one of the columns yields it. */
  lemma ServiceResultsMembers(df: Dataset, cols: seq<Column>, r: DescriptiveResult)
    ensures r in ServiceResults(df, cols) <==> exists k :: 0 <= k < |cols| && YieldsService(df, cols[k], r)
  {
    ServiceResultsSound(df, cols, r);
    ServiceResultsComplete(df, cols, r);
  }

  /** Selecting the affected-population results distributes over concatenation of the columns, so the
      results follow column order. */
  lemma {:induction false} PopulationResultsAppend(df: Dataset, a: seq<Column>, b: seq<Column>)
    ensures PopulationResults(df, a + b) == PopulationResults(df, a) + PopulationResults(df, b)
  {
    if b == [] {
      assert a + b == a;
    } else {
      PopulationResultsAppend(df, a, b[..|b| - 1]);
      assert (a + b)[..|a + b| - 1] == a + b[..|b| - 1];
    }
  }

  /** `r` is the result the column `col` yields as an affected-population column: its name starts with `Q10_Pop_`. */
  predicate YieldsPopulation(df: Dataset, col: Column, r: DescriptiveResult)
  {
    IsPopulationColumn(col.name) && r == BinaryResult(df, col.name, PopulationName(col.name), PopulationsMostAffected)
  }

  /** Every selected result is the result of one of the columns. */
  lemma {:induction false} PopulationResultsSound(df: Dataset, cols: seq<Column>, r: DescriptiveResult)
    ensures r in PopulationResults(df, cols) ==> exists k :: 0 <= k < |cols| && YieldsPopulation(df, cols[k], r)
  {
    if cols != [] {
      var init := cols[..|cols| - 1];
      PopulationResultsSound(df, init, r);
      if r in PopulationResults(df, init) {
        var k :| 0 <= k < |init| && YieldsPopulation(df, init[k], r);
        assert cols[k] == init[k];
      } else if r in PopulationResults(df, cols) {
        assert YieldsPopulation(df, cols[|cols| - 1], r);
      }
    }
  }

  /** Every column of that kind contributes its result. */
  lemma {:induction false} PopulationResultsComplete(df: Dataset, cols: seq<Column>, r: DescriptiveResult)
    ensures (exists k :: 0 <= k < |cols| && YieldsPopulation(df, cols[k], r)) ==> r in PopulationResults(df, cols)
  {
    if cols != [] {
      var init := cols[..|cols| - 1];
      PopulationResultsComplete(df, init, r);
      if exists k :: 0 <= k < |cols| && YieldsPopulation(df, cols[k], r) {
        var k :| 0 <= k < |cols| && YieldsPopulation(df, cols[k], r);
        if k < |init| {
          assert init[k] == cols[k];
        }
      }
    }
  }

  /** A result is selected exactly when one of the columns yields it. */
  lemma PopulationResultsMembers(df: Dataset, cols: seq<Column>, r: DescriptiveResult)
    ensures r in PopulationResults(df, cols) <==> exists k :: 0 <= k < |cols| && YieldsPopulation(df, cols[k], r)
  {
    PopulationResultsSound(df, cols, r);
    PopulationResultsComplete(df, cols, r);
  }

  /** Selecting the outcome results distributes over concatenation of the columns, so the
      results follow column order. */
  lemma {:induction false} OutcomeResultsAppend(df: Dataset, a: seq<Column>, b: seq<Column>, prefixes: seq<string>)
    ensures OutcomeResults(df, a + b, prefixes) == OutcomeResults(df, a, prefixes) + OutcomeResults(df, b, prefixes)
  {
    if b == [] {
      assert a + b == a;
    } else {
      OutcomeResultsAppend(df, a, b[..|b| - 1], prefixes);
      assert (a + b)[..|a + b| - 1] == a + b[..|b| - 1];
    }
  }

  /** `r` is the result the column `col` yields as an outcome column: its name starts with one of the prefixes. */
  predicate YieldsOutcome(df: Dataset, col: Column, prefixes: seq<string>, r: DescriptiveResult)
  {
    StartsWithAny(col.name, prefixes) && r == OutcomeResult(df, col)
  }

  /** Every selected result is the result of one of the columns. */
  lemma {:induction false} OutcomeResultsSound(df: Dataset, cols: seq<Column>, prefixes: seq<string>, r: DescriptiveResult)
    ensures r in OutcomeResults(df, cols, prefixes) ==> exists k :: 0 <= k < |cols| && YieldsOutcome(df, cols[k], prefixes, r)
  {
    if cols != [] {
      var init := cols[..|cols| - 1];
      OutcomeResultsSound(df, init, prefixes, r);
      if r in OutcomeResults(df, init, prefixes) {
        var k :| 0 <= k < |init| && YieldsOutcome(df, init[k], prefixes, r);
        assert cols[k] == init[k];
      } else if r in OutcomeResults(df, cols, prefixes) {
        assert YieldsOutcome(df, cols[|cols| - 1], prefixes, r);
      }
    }
  }

  /** Every column with a selected prefix contributes its result. */
  lemma {:induction false} OutcomeResultsComplete(df: Dataset, cols: seq<Column>, prefixes: seq<string>, r: DescriptiveResult)
    ensures (exists k :: 0 <= k < |cols| && YieldsOutcome(df, cols[k], prefixes, r)) ==> r in OutcomeResults(df, cols, prefixes)
  {
    if cols != [] {
      var init := cols[..|cols| - 1];
      OutcomeResultsComplete(df, init, prefixes, r);
      if exists k :: 0 <= k < |cols| && YieldsOutcome(df, cols[k], prefixes, r) {
        var k :| 0 <= k < |cols| && YieldsOutcome(df, cols[k], prefixes, r);
        if k < |init| {
          assert init[k] == cols[k];
        } else {
          assert OutcomeResults(df, cols, prefixes) == OutcomeResults(df, init, prefixes) + [r];
        }
      }
    }
  }

  /** A result is selected exactly when one of the columns yields it. */
  lemma OutcomeResultsMembers(df: Dataset, cols: seq<Column>, prefixes: seq<string>, r: DescriptiveResult)
    ensures r in OutcomeResults(df, cols, prefixes) <==> exists k :: 0 <= k < |cols| && YieldsOutcome(df, cols[k], prefixes, r)
  {
    OutcomeResultsSound(df, cols, prefixes, r);
    OutcomeResultsComplete(df, cols, prefixes, r);
  }

  /** `[r for r in results if r['category'] == category]`. */
  function InCategory(results: seq<DescriptiveResult>, category: Category): (rs: seq<DescriptiveResult>)
    ensures |rs| <= |results|
  {
    if results == [] then []
    else
      InCategory(results[..|results| - 1], category) +
        (if results[|results| - 1].category == category then [results[|results| - 1]] else [])
  }

  lemma {:induction false} InCategoryAppend(first: seq<DescriptiveResult>, second: seq<DescriptiveResult>, category: Category)
    ensures InCategory(first + second, category) == InCategory(first, category) + InCategory(second, category)
    decreases |second|
  {
    if second == [] {
      assert first + second == first;
    } else {
      assert (first + second)[..|first + second| - 1] == first + second[..|second| - 1];
      InCategoryAppend(first, second[..|second| - 1], category);
    }
  }

  lemma {:induction false} InCategoryAll(results: seq<DescriptiveResult>, category: Category)
    requires forall i :: 0 <= i < |results| ==> results[i].category == category
    ensures InCategory(results, category) == results
  {
    if results != [] {
      InCategoryAll(results[..|results| - 1], category);
    }
  }

  lemma {:induction false} InCategoryNone(results: seq<DescriptiveResult>, category: Category)
    requires forall i :: 0 <= i < |results| ==> results[i].category != category
    ensures InCategory(results, category) == []
  {
    if results != [] {
      InCategoryNone(results[..|results| - 1], category);
    }
  }

  /** Splitting the set-1 results by category recovers the two groups. */
  lemma SplitByCategory(services: seq<DescriptiveResult>, populations: seq<DescriptiveResult>)
    requires forall i :: 0 <= i < |services| ==> services[i].category == ServiceDisruptions
    requires forall i :: 0 <= i < |populations| ==> populations[i].category == PopulationsMostAffected
    ensures InCategory(services + populations, ServiceDisruptions) == services
    ensures InCategory(services + populations, PopulationsMostAffected) == populations
  {
    InCategoryAppend(services, populations, ServiceDisruptions);
    InCategoryAppend(services, populations, PopulationsMostAffected);
    InCategoryAll(services, ServiceDisruptions);
    InCategoryNone(populations, ServiceDisruptions);
    InCategoryNone(services, PopulationsMostAffected);
    InCategoryAll(populations, PopulationsMostAffected);
    assert services + [] == services;
    assert [] + populations == populations;
  }

  /** Ranking changes only the rank fields, so every ranked result keeps the
      facts of the result it came from. */
  lemma RankingKeepsFacts(df: Dataset, ranked: seq<DescriptiveResult>, group: seq<DescriptiveResult>, markTop: bool)
    requires IsRankingOf(ranked, group, markTop)
    requires forall i :: 0 <= i < |group| ==> ResultFacts(df, group[i])
    ensures forall i :: 0 <= i < |ranked| ==> ResultFacts(df, ranked[i])
  {
    forall i | 0 <= i < |ranked| ensures ResultFacts(df, ranked[i]) {
      var u := UnrankAll(ranked);
      assert u[i] in multiset(group);
      var k :| 0 <= k < |group| && group[k] == u[i];
      assert ResultFacts(df, u[i]);
    }
  }

  /** Sorts one group by percentage and writes the ranks into it. */
  method RankGroup(group: seq<DescriptiveResult>, markTop: bool) returns (ranked: seq<DescriptiveResult>)
    requires forall i :: 0 <= i < |group| ==> IsUnranked(group[i])
    ensures IsRankingOf(ranked, group, markTop)
  {
    var sorted := SortByPercentage(group);
    ranked := AssignRanks(sorted, markTop);
    RankedSortIsRanking(group, markTop, ranked);
  }

  /** `calculate_descriptive_stats(df, indicator_set)`. */
  method CalculateDescriptiveStats(df: Dataset, indicatorSet: IndicatorSet) returns (statsResults: seq<DescriptiveResult>)
    ensures indicatorSet == Set1 ==>
      var services := ServiceResults(df, df.columns);
      var populations := PopulationResults(df, df.columns);
      && |statsResults| == |services| + |populations|
      && IsRankingOf(statsResults[..|services|], services, true)
      && IsRankingOf(statsResults[|services|..], populations, true)
    ensures indicatorSet != Set1 ==>
      IsRankingOf(statsResults, OutcomeResults(df, df.columns, OutcomePrefixes(indicatorSet)), false)
    ensures forall i :: 0 <= i < |statsResults| ==> ResultFacts(df, statsResults[i])
  {
    if indicatorSet == Set1 {
      statsResults := CollectSet1(df);
      ghost var services := ServiceResults(df, df.columns);
      ghost var populations := PopulationResults(df, df.columns);
      SplitByCategory(services, populations);
      var serviceResults := InCategory(statsResults, ServiceDisruptions);
      var popResults := InCategory(statsResults, PopulationsMostAffected);
      serviceResults := RankGroup(serviceResults, true);
      popResults := RankGroup(popResults, true);
      statsResults := serviceResults + popResults;
      assert statsResults[..|services|] == serviceResults;
      assert statsResults[|services|..] == popResults;
      ServiceResultsFacts(df, df.columns);
      PopulationResultsFacts(df, df.columns);
      RankingKeepsFacts(df, serviceResults, services, true);
      RankingKeepsFacts(df, popResults, populations, true);
    } else {
      var prefixes := OutcomePrefixes(indicatorSet);
      var outcomes := CollectOutcomes(df, prefixes);
      statsResults := RankGroup(outcomes, false);
      OutcomeResultsFacts(df, df.columns, prefixes);
      RankingKeepsFacts(df, statsResults, outcomes, false);
    }
  }

  /** The two column loops of indicator set 1: every service-disruption
      result, then every affected-population result. */
  method CollectSet1(df: Dataset) returns (statsResults: seq<DescriptiveResult>)
    ensures statsResults == ServiceResults(df, df.columns) + PopulationResults(df, df.columns)
  {
    var services := CollectServices(df);
    var populations := CollectPopulations(df);
    statsResults := services + populations;
  }

  /** The service-disruption loop of indicator set 1. */
  method CollectServices(df: Dataset) returns (statsResults: seq<DescriptiveResult>)
    ensures statsResults == ServiceResults(df, df.columns)
  {
    statsResults := [];
    for i := 0 to |df.columns|
      invariant statsResults == ServiceResults(df, df.columns[..i])
    {
      var column := df.columns[i].name;
      if IsServiceColumn(column) {
        statsResults := statsResults + [BinaryResult(df, column, ServiceName(column), ServiceDisruptions)];
      }
      assert df.columns[..i + 1][..i] == df.columns[..i];
    }
    assert df.columns[..|df.columns|] == df.columns;
  }

  /** The affected-population loop of indicator set 1. */
  method CollectPopulations(df: Dataset) returns (statsResults: seq<DescriptiveResult>)
    ensures statsResults == PopulationResults(df, df.columns)
  {
    statsResults := [];
    for i := 0 to |df.columns|
      invariant statsResults == PopulationResults(df, df.columns[..i])
    {
      var column := df.columns[i].name;
      if IsPopulationColumn(column) {
        statsResults := statsResults + [BinaryResult(df, column, PopulationName(column), PopulationsMostAffected)];
      }
      assert df.columns[..i + 1][..i] == df.columns[..i];
    }
    assert df.columns[..|df.columns|] == df.columns;
  }

  /** The column loop of indicator sets 2 to 5. */
  method CollectOutcomes(df: Dataset, prefixes: seq<string>) returns (statsResults: seq<DescriptiveResult>)
    ensures statsResults == OutcomeResults(df, df.columns, prefixes)
  {
    statsResults := [];
    for i := 0 to |df.columns|
      invariant statsResults == OutcomeResults(df, df.columns[..i], prefixes)
    {
      var col := df.columns[i];
      if StartsWithAny(col.name, prefixes) {
        if col.kind == Binary {
          statsResults := statsResults + [BinaryResult(df, col.name, OutcomeName(col.name), Outcome)];
        } else {
          statsResults := statsResults + [CategoricalResult(df, col.name, OutcomeName(col.name))];
        }
      }
      assert df.columns[..i + 1][..i] == df.columns[..i];
    }
    assert df.columns[..|df.columns|] == df.columns;
  }
}
