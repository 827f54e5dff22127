# Survey statistics engine of the climate-and-health dashboard

This project models the statistics core of the Streamlit dashboard `app.py`.
The dashboard reads a respondent-by-question survey table. The model covers
three of its functions and the threshold bands its pages apply:

- `filter_complete_surveys` keeps the respondents whose `Progress` is 100. It
  also reports how many rows were dropped and how many there were.
- `calculate_descriptive_stats` builds one result per outcome column of an
  indicator set:
  - a binary (0/1) column gets its non-missing total, its sum and a percentage;
  - a categorical column gets its per-label counts and the percentage of
    "concerning" answers;
  - every result gets a low / medium / high concern level.

  The results are stable-sorted by percentage, descending, and ranked 1..n.
  For indicator set 1, service disruptions and affected populations are
  ranked separately, and the top result of each is flagged.
- `create_cross_tabulation` works on two columns:
  - it drops rows missing either value;
  - it builds the contingency table with its margins and the
    row-normalised percentage table;
  - its guarded statistics block holds the chi-square statistic, the
    p-value and Cramér's V.
- The classifiers: concern level, population risk level, barrier severity,
  data-quality grade and Cramér's V effect size.

The dataset is a value:
- a list of columns, each with a name and a kind (binary or categorical);
- a list of rows, each mapping column names to `Missing`, a number or a text
  label.

Percentages are exact Dafny `real`s. The descriptive statistics are
imperative in the source: it appends results in loops, sorts lists in place
and writes ranks into records. In the model they are methods with loop
invariants over sequences of result records, each proved against a
specification function. Plain functions and lemmas model everything else.

Modules: `Counting` (generic counting and sums), `Text` (prefix tests and
`str.replace`), `SurveyData`, `Classifiers`, `Ranking`, `Descriptive`,
`CrossTab`, `SurveyFilter`.

Where the code and its documented intent differ, the model follows the
code. An outcome column that exists but holds only missing values still
gets a result: total 0, percentage 0, concern low. It is not dropped.

## Model

| member | source | states |
|---|---|---|
| SurveyData.NonMissingCount | app.py:476 | `notna().sum()` is the number of cells minus the number of missing cells |
| SurveyData.SumOfBinaryCountsOnes | app.py:477 | on a 0/1 column `sum()` is the number of ones, and never more than the non-missing total |
| SurveyData.CountInNonMissing | app.py:556-557 | counting answers from a set that excludes missing never exceeds the non-missing total; it equals it when the set covers every answer |
| Classifiers.ConcernLevel | app.py:490 | high exactly when percentage > 40, medium exactly when 25 < percentage <= 40, low exactly when percentage <= 25 |
| Classifiers.ConcernLevelMonotone | app.py:490 | a higher percentage never gets a lower concern level |
| Classifiers.AffectedRate | app.py:1877-1879 | the affected rate is NaN exactly when every cell of the column is missing |
| Classifiers.RiskLevel | app.py:1890 | a population's risk is high exactly above 40, medium exactly in (25, 40], low otherwise, and low for a NaN rate |
| Descriptive.RiskLevelMatchesConcern | app.py:1877-1890 | the risk dashboard's level of a population column equals the concern level its descriptive result gets |
| Classifiers.BarrierSeverity | app.py:1934-1951 | high exactly above 35, medium exactly in (20, 35], low at or below 20 or when the rate is NaN (a binary barrier with every answer missing) |
| Classifiers.BarrierSeverityDominatesConcern | app.py:1951 | a barrier's severity is at least the concern level of the same percentage and at most one level higher |
| Classifiers.Completeness | app.py:2097-2099 | completeness is undefined (NaN) exactly when there are no rows, otherwise it lies in [0, 100]; 100 means no cell is missing |
| Classifiers.DataQuality | app.py:2107 | Excellent exactly at >= 95, Good in [85, 95), Fair in [70, 85), Poor below 70 or when completeness is NaN |
| Classifiers.FullColumnIsExcellent | app.py:2097-2107 | a column with no missing cell in a non-empty dataset is graded Excellent |
| Classifiers.EffectSize | app.py:1344-1345 | no effect shown exactly when V is absent or 0; otherwise Strong exactly above 0.3, Medium exactly in (0.15, 0.3], Weak otherwise |
| Classifiers.EffectSizeFromSquare | app.py:1345 | for positive V, the effect bands read off V squared with cut-offs 0.09 and 0.0225 |
| Descriptive.PercentageBounds | app.py:478 | a part between 0 and the total gives a percentage in [0, 100] whose product with the total is 100 times the part, and 0 when the total is 0 |
| Descriptive.ValueCounts | app.py:551 | reference definition of `value_counts()`: the count map holds exactly the non-missing values, each mapped to its number of occurrences; the sum property is carried by `Descriptive.CategoriesSumToTotal` |
| Descriptive.SumOfValueCounts | app.py:556 | summing `value_counts().get(v, 0)` over distinct labels counts the answers holding one of those labels |
| Descriptive.CategoriesSumToTotal | app.py:551-565 | the per-label counts sum to the non-missing total, in any order of the labels |
| Descriptive.BinaryResultFacts | app.py:476-491 | a binary result: total is the non-missing count, positive the sum, percentage positive/total*100 (0 with no answers), the concern level matches, and on a 0/1 column positive is the count of ones and the percentage lies in [0, 100] |
| Descriptive.CategoricalResultFacts | app.py:551-568 | a categorical result: counts are `value_counts`, percentage is the concerning answers over the total times 100 (0 with no answers), it lies in [0, 100], and the concern level matches |
| Descriptive.SixOfTenIsHighConcern | app.py:476-490 | 10 answers with 6 ones give total 10, positive 6, percentage 60 and a high concern level |
| Descriptive.DisplayNamesHaveNoUnderscore | app.py:480 | the display names of service, population and outcome columns contain no underscore |
| Descriptive.ServiceResults | app.py:473-492 | at most one result per column, each not yet ranked and in "Service Disruptions"; which columns and in what order is stated by the next two rows |
| Descriptive.ServiceResultsAppend | app.py:473-474 | selecting over two runs of columns is selecting over each in turn, so results follow column order |
| Descriptive.ServiceResultsMembers | app.py:473-492 | a result is produced exactly when some `Q9_` column without `No_disruptions` yields it as its binary service result |
| Descriptive.PopulationResults | app.py:495-514 | at most one result per column, each not yet ranked and in "Populations Most Affected"; which columns and in what order is stated by the next two rows |
| Descriptive.PopulationResultsAppend | app.py:495-496 | selecting over two runs of columns is selecting over each in turn, so results follow column order |
| Descriptive.PopulationResultsMembers | app.py:495-514 | a result is produced exactly when some `Q10_Pop_` column yields it as its binary population result |
| Descriptive.OutcomeResults | app.py:520-569 | at most one result per column, each not yet ranked and in "Outcome"; which columns and in what order is stated by the next two rows |
| Descriptive.OutcomeResultsAppend | app.py:520-530 | selecting over two runs of columns is selecting over each in turn, so results follow column order |
| Descriptive.OutcomeResultsMembers | app.py:520-569 | a result is produced exactly when some column starting with one of the set's prefixes yields it, binary or categorical by its kind |
| Descriptive.ServiceResultsFacts | app.py:474-492 | every service result satisfies the binary result facts |
| Descriptive.PopulationResultsFacts | app.py:496-514 | every population result satisfies the binary result facts |
| Descriptive.OutcomeResultsFacts | app.py:529-569 | every outcome result satisfies the facts of its kind |
| Descriptive.InCategory | app.py:574-575 | the category filter keeps at most the input's results |
| Descriptive.SplitByCategory | app.py:574-575 | filtering services-then-populations by category gives back the two groups |
| Descriptive.RankingKeepsFacts | app.py:577-593 | ranking changes only rank fields, so every ranked result keeps its column facts |
| Descriptive.RankGroup | app.py:577-587 | sorting a group and writing ranks yields a ranking of that group |
| Descriptive.CollectSet1 | app.py:471-514 | the two column loops produce every service result, then every population result |
| Descriptive.CollectServices | app.py:473-492 | the service-disruption column loop yields exactly the service result of every service column, in column order |
| Descriptive.CollectPopulations | app.py:495-514 | the affected-population column loop yields exactly the population result of every population column, in column order |
| Descriptive.CollectOutcomes | app.py:516-569 | the outcome loop produces the result of every selected column, in column order |
| Descriptive.CalculateDescriptiveStats | app.py:467-595 | set 1 returns the services ranked (with the top flag), then the populations ranked separately; other sets return one ranking without the flag; every result keeps its column facts |
| Ranking.InsertDescending | app.py:591 | one insertion step adds exactly one element: the length grows by one and the multiset gains `x` |
| Ranking.SortDescending | app.py:591 | the stable descending sort is a permutation of its input |
| Ranking.InsertDescendingSorted | app.py:591 | inserting into a descending sequence keeps it descending |
| Ranking.InsertDescendingStable | app.py:591 | insertion keeps results of equal percentage in their original relative order, with the new one last among them |
| Ranking.SortDescendingSorted | app.py:591 | the sort's output is descending by percentage |
| Ranking.SortDescendingStable | app.py:591 | results with equal percentage keep their original relative order |
| Ranking.SortByPercentage | app.py:577-578 | the in-place sort yields the stable descending sort: descending, a permutation, equal percentages in their original order |
| Ranking.InsertSorted | app.py:591 | the shifting loop performs exactly one insertion step |
| Ranking.AssignRanks | app.py:581-587 | rank i+1 is written at position i, with the top flag `i == 0` when flagging, and nothing else changes |
| Ranking.RanksWrittenFields | app.py:581-593 | after ranking, positions hold ranks 1..n, percentages are unchanged, and the top flag is set exactly on rank 1 |
| Ranking.RanksFollowPercentages | app.py:591-593 | in a descending ranked list a higher percentage has a smaller rank |
| Ranking.SortedStaysUnranked | app.py:577-578 | sorting not-yet-ranked results leaves them unranked |
| Ranking.RankedSortIsRanking | app.py:577-593 | sort then rank gives ranks 1..n, higher percentage means smaller rank, a permutation of the group, and a stable order |
| CrossTab.CompletePairs | app.py:603 | both values of every kept pair are present, there are no more pairs than rows, and nothing is kept exactly when every row misses one of the two values |
| CrossTab.Answered | app.py:603 | reference definition of the `dropna()` mask: position by position, whether a row answers both columns; the counting property is carried by `CrossTab.CompletePairsCount` and `CrossTab.SampleSizeCountsAnsweringRows` |
| CrossTab.CompletePairsMembers | app.py:603 | a pair is kept exactly when some row answers both columns with exactly those two values |
| CrossTab.CompletePairsAppend | app.py:603 | the filter distributes over concatenation of rows, so pairs keep row order |
| CrossTab.CompletePairsCount | app.py:603 | there is one pair per row answering both columns |
| CrossTab.SampleSizeCountsAnsweringRows | app.py:603-638 | a result's `sample_size` is the number of rows of the dataset answering both columns |
| CrossTab.OutcomesWhereCount | app.py:609 | counting an outcome among the pairs with one independent value counts that pair |
| CrossTab.Contingency | app.py:609 | the table has one row of counts per row label and one count per column label, with matching margins |
| CrossTab.ContingencyCells | app.py:609 | every inner cell counts the complete pairs with its two labels |
| CrossTab.LabelsObserved | app.py:609 | the row labels are exactly the observed independent values, and the column labels exactly the observed outcomes |
| CrossTab.RowTotals | app.py:609 | each row margin is the number of pairs with that independent value, and never zero |
| CrossTab.ColumnTotals | app.py:609 | each column margin is the number of pairs with that outcome, and never zero |
| CrossTab.GrandTotal | app.py:609 | the grand total is the number of complete pairs |
| CrossTab.ColumnTotalsSum | app.py:609 | the column margins sum to the number of complete pairs |
| CrossTab.ContingencyTotals | app.py:609 | all the margin facts together |
| CrossTab.Scaled | app.py:612-613 | each entry of a scaled row is its count over the row total times 100 |
| CrossTab.ScaledSum | app.py:612-613 | a scaled row sums to the row's sum over the total times 100 |
| CrossTab.ScaledRow | app.py:612-613 | a row scaled by its own total sums to 100, with every entry in [0, 100] |
| CrossTab.PercentageTableFacts | app.py:612-613 | the percentage table normalises every row: one entry per column, cell/row total*100, entries in [0, 100], each row summing to 100 |
| CrossTab.StatisticsFacts | app.py:616-628 | chi2, p and V squared are present exactly when the inner table is at least 2 x 2 and the test succeeds; they then hold the test's values, and V squared times n*(min(rows, cols)-1) is the statistic |
| CrossTab.CrossTabAbsent | app.py:599-606 | no result exactly when either column is absent or no row answers both |
| CrossTab.ContingencyTabulates | app.py:609 | the contingency table tabulates the complete pairs: observed labels once each, cell counts, margins, grand total |
| CrossTab.CrossTabTable | app.py:603-638 | a result's table tabulates the complete pairs, and its sample size is their (non-zero) number |
| CrossTab.CrossTabPercentages | app.py:612-634 | a result's percentages are the row-normalised form of its table |
| CrossTab.CrossTabStatistics | app.py:616-637 | a result's statistics agree with the test on its own table and sample size, as in `StatisticsFacts` |
| CrossTab.SingleCategoryHasNoStatistics | app.py:622-623 | with a single independent value the table has one row, every statistic is absent, and the tables and sample size are still filled in |
| SurveyFilter.CompleteRows | app.py:461 | every kept row has progress 100, and no more rows are kept than given |
| SurveyFilter.FilterCompleteSurveys | app.py:458-465 | returns the original count and excluded = total - kept, and keeps the columns; without a `Progress` column it returns the input unchanged with 0 excluded, and with one the complete rows |
| SurveyFilter.CompleteRowsMembers | app.py:461 | a row is kept exactly when it is an input row with progress 100 |
| SurveyFilter.CompleteRowsAppend | app.py:461 | filtering distributes over concatenation, so kept rows stay in their original order |
| SurveyFilter.CompleteRowsKeepsAll | app.py:461-462 | nothing is dropped exactly when every row is complete |
| SurveyFilter.NothingExcluded | app.py:458-465 | the excluded count is 0 exactly when there is no `Progress` column or every row is complete |
| SurveyFilter.FilterIdempotent | app.py:458-465 | filtering filtered data changes nothing and excludes no row |

## Left out

- The Streamlit pages, charts, session state and caching: presentation.
  The model keeps only the band rules of the classifiers from those pages.
- The synthetic survey generator `load_complete_survey_data` is driven by random draws.
- Exports, timestamps, correlation matrices, skew, kurtosis and quantiles: presentation and floating-point numerics.
- The column-type test on `dtype` and `nunique()` (app.py:533) is not
  modelled. Each column's kind is part of the dataset's schema instead.
- `scipy.stats.chi2_contingency` is a foreign call. It becomes the parameter `chiSquare`:
  - it returns the statistic and p-value;
  - `None` stands for the exception the source swallows.
- Yates' correction and the chi-square distribution are therefore not modelled.
- CrossTab.StatisticsFacts: the floating-point square root of Cramér's V is
  not modelled. The model keeps V squared, so the statement is about V² and not V.
- CrossTab.Contingency: pandas sorts crosstab labels. The model lists them
  in order of first appearance, so row and column order may differ from
  pandas. The counts and margins per label are the same.
- CrossTab.CompletePairs: the same column chosen as both outcome and independent variable is not modelled as the source behaves. In the source, `df[[v, v]]` gives a two-column frame, so `pd.crosstab` receives a frame rather than a Series, outside the `try`. The model instead pairs each value with itself and builds a diagonal table.
- Descriptive.BinaryResultFacts, for a binary column holding a text label:
  - pandas' `sum()` would raise or concatenate;
  - the model adds 0 for a label;
  - the bounds [0, 100] are proved only for 0/1 columns.
- Floating point: percentages and Cramér's V are exact rationals. Rounding in the source
  can differ in the last bits near a band boundary.
- Integer width: counts are unbounded naturals. The source's int64 counts never approach their limit.
