/** `create_cross_tabulation`: pairwise-complete filtering of two columns,
    the contingency table with its margins, the row-normalised percentage
    table, and the guarded chi-square / Cramér's V block. */
module CrossTab {
  import opened Counting
  import opened SurveyData

  /** A complete answer pair: (independent value, outcome value). */
  type Pair = (Value, Value)

  /** `df[[outcome, independent]].dropna()`, as (independent, outcome)
      pairs in row order. */
  function CompletePairs(rows: seq<Row>, independent: string, outcome: string): (ps: seq<Pair>)
    ensures |ps| <= |rows|
    ensures forall k :: 0 <= k < |ps| ==> ps[k].0 != Missing && ps[k].1 != Missing
    ensures ps == [] <==>
      forall i :: 0 <= i < |rows| ==> Cell(rows[i], independent) == Missing || Cell(rows[i], outcome) == Missing
  {
    if rows == [] then []
    else
      var row := rows[|rows| - 1];
      var x, y := Cell(row, independent), Cell(row, outcome);
      CompletePairs(rows[..|rows| - 1], independent, outcome) + (if x != Missing && y != Missing then [(x, y)] else [])
  }

  /** A row answers both columns: neither of its two cells is missing. */
  predicate AnswersBoth(row: Row, independent: string, outcome: string)
  {
    Cell(row, independent) != Missing && Cell(row, outcome) != Missing
  }

  /** Which rows survive `dropna()`, position by position. */
  function Answered(rows: seq<Row>, independent: string, outcome: string): (mask: seq<bool>)
    ensures |mask| == |rows|
    ensures forall i :: 0 <= i < |rows| ==> mask[i] == AnswersBoth(rows[i], independent, outcome)
  {
    seq(|rows|, i requires 0 <= i < |rows| => AnswersBoth(rows[i], independent, outcome))
  }

  /** One more row adds its pair exactly when it answers both columns. */
  lemma CompletePairsSnoc(rows: seq<Row>, row: Row, independent: string, outcome: string)
    ensures CompletePairs(rows + [row], independent, outcome) ==
      CompletePairs(rows, independent, outcome) +
        (if AnswersBoth(row, independent, outcome) then [(Cell(row, independent), Cell(row, outcome))] else [])
  {
    assert (rows + [row])[..|rows|] == rows;
  }

  /** `row` answers both columns, with the pair `p`. */
  predicate YieldsPair(row: Row, independent: string, outcome: string, p: Pair)
  {
    AnswersBoth(row, independent, outcome) && p == (Cell(row, independent), Cell(row, outcome))
  }

  /** Every kept pair comes from a row answering both columns. */
  lemma {:induction false} CompletePairsSound(rows: seq<Row>, independent: string, outcome: string, p: Pair)
    ensures p in CompletePairs(rows, independent, outcome) ==>
      exists i :: 0 <= i < |rows| && YieldsPair(rows[i], independent, outcome, p)
  {
    if rows != [] {
      var init, last := rows[..|rows| - 1], rows[|rows| - 1];
      assert rows == init + [last];
      CompletePairsSnoc(init, last, independent, outcome);
      CompletePairsSound(init, independent, outcome, p);
      if p in CompletePairs(init, independent, outcome) {
        var i :| 0 <= i < |init| && YieldsPair(init[i], independent, outcome, p);
        assert rows[i] == init[i];
      } else if p in CompletePairs(rows, independent, outcome) {
        assert YieldsPair(rows[|rows| - 1], independent, outcome, p);
      }
    }
  }

  /** Every row answering both columns contributes its pair. */
  lemma {:induction false} CompletePairsComplete(rows: seq<Row>, independent: string, outcome: string, p: Pair)
    ensures (exists i :: 0 <= i < |rows| && YieldsPair(rows[i], independent, outcome, p)) ==>
      p in CompletePairs(rows, independent, outcome)
  {
    if rows != [] {
      var init, last := rows[..|rows| - 1], rows[|rows| - 1];
      assert rows == init + [last];
      CompletePairsSnoc(init, last, independent, outcome);
      CompletePairsComplete(init, independent, outcome, p);
      if exists i :: 0 <= i < |rows| && YieldsPair(rows[i], independent, outcome, p) {
        var i :| 0 <= i < |rows| && YieldsPair(rows[i], independent, outcome, p);
        if i < |init| {
          assert init[i] == rows[i];
        }
      }
    }
  }

  /** A pair is kept exactly when some row answers both columns with it. */
  lemma CompletePairsMembers(rows: seq<Row>, independent: string, outcome: string, p: Pair)
    ensures p in CompletePairs(rows, independent, outcome) <==>
      exists i :: 0 <= i < |rows| && YieldsPair(rows[i], independent, outcome, p)
  {
    CompletePairsSound(rows, independent, outcome, p);
    CompletePairsComplete(rows, independent, outcome, p);
  }

  /** The filter distributes over concatenation, so the pairs keep the
      order of their rows. */
  lemma {:induction false} CompletePairsAppend(a: seq<Row>, b: seq<Row>, independent: string, outcome: string)
    ensures CompletePairs(a + b, independent, outcome) ==
      CompletePairs(a, independent, outcome) + CompletePairs(b, independent, outcome)
  {
    if b == [] {
      assert a + b == a;
    } else {
      var init, last := b[..|b| - 1], b[|b| - 1];
      assert b == init + [last];
      assert a + b == (a + init) + [last];
      CompletePairsAppend(a, init, independent, outcome);
      CompletePairsSnoc(a + init, last, independent, outcome);
      CompletePairsSnoc(init, last, independent, outcome);
    }
  }

  /** There is one pair per row that answers both columns. */
  lemma {:induction false} CompletePairsCount(rows: seq<Row>, independent: string, outcome: string)
    ensures |CompletePairs(rows, independent, outcome)| == Occurrences(Answered(rows, independent, outcome), true)
  {
    if rows != [] {
      var init := rows[..|rows| - 1];
      CompletePairsCount(init, independent, outcome);
      assert Answered(rows, independent, outcome)[..|rows| - 1] == Answered(init, independent, outcome);
    }
  }

  function Independents(ps: seq<Pair>): (xs: seq<Value>)
    ensures |xs| == |ps|
    ensures forall k :: 0 <= k < |ps| ==> xs[k] == ps[k].0
  {
    seq(|ps|, k requires 0 <= k < |ps| => ps[k].0)
  }

  function Outcomes(ps: seq<Pair>): (ys: seq<Value>)
    ensures |ys| == |ps|
    ensures forall k :: 0 <= k < |ps| ==> ys[k] == ps[k].1
  {
    seq(|ps|, k requires 0 <= k < |ps| => ps[k].1)
  }

  /** The outcome values of the pairs whose independent value is `x`. */
  function OutcomesWhere(ps: seq<Pair>, x: Value): seq<Value>
  {
    if ps == [] then []
    else
      var p := ps[|ps| - 1];
      OutcomesWhere(ps[..|ps| - 1], x) + (if p.0 == x then [p.1] else [])
  }

  /** The independent values of the pairs whose outcome value is `y`. */
  function IndependentsWhere(ps: seq<Pair>, y: Value): seq<Value>
  {
    if ps == [] then []
    else
      var p := ps[|ps| - 1];
      IndependentsWhere(ps[..|ps| - 1], y) + (if p.1 == y then [p.0] else [])
  }

  /** Counting one outcome among the pairs of one independent value counts
      that pair of values. */
  lemma {:induction false} OutcomesWhereCount(ps: seq<Pair>, x: Value, y: Value)
    ensures Occurrences(OutcomesWhere(ps, x), y) == Occurrences(ps, (x, y))
  {
    if ps != [] {
      var init, p := ps[..|ps| - 1], ps[|ps| - 1];
      OutcomesWhereCount(init, x, y);
      var ow := OutcomesWhere(init, x);
      assert Occurrences(ps, (x, y)) == Occurrences(init, (x, y)) + (if p == (x, y) then 1 else 0);
      if p.0 == x {
        assert OutcomesWhere(ps, x) == ow + [p.1];
        assert (ow + [p.1])[..|ow|] == ow;
      } else {
        assert OutcomesWhere(ps, x) == ow;
      }
    }
  }

  lemma {:induction false} IndependentsWhereCount(ps: seq<Pair>, x: Value, y: Value)
    ensures Occurrences(IndependentsWhere(ps, y), x) == Occurrences(ps, (x, y))
  {
    if ps != [] {
      var init, p := ps[..|ps| - 1], ps[|ps| - 1];
      IndependentsWhereCount(init, x, y);
      var iw := IndependentsWhere(init, y);
      assert Occurrences(ps, (x, y)) == Occurrences(init, (x, y)) + (if p == (x, y) then 1 else 0);
      if p.1 == y {
        assert IndependentsWhere(ps, y) == iw + [p.0];
        assert (iw + [p.0])[..|iw|] == iw;
      } else {
        assert IndependentsWhere(ps, y) == iw;
      }
    }
  }

  lemma {:induction false} OutcomesWhereLength(ps: seq<Pair>, x: Value)
    ensures |OutcomesWhere(ps, x)| == Occurrences(Independents(ps), x)
  {
    if ps != [] {
      OutcomesWhereLength(ps[..|ps| - 1], x);
      assert Independents(ps)[..|ps| - 1] == Independents(ps[..|ps| - 1]);
    }
  }

  lemma {:induction false} IndependentsWhereLength(ps: seq<Pair>, y: Value)
    ensures |IndependentsWhere(ps, y)| == Occurrences(Outcomes(ps), y)
  {
    if ps != [] {
      IndependentsWhereLength(ps[..|ps| - 1], y);
      assert Outcomes(ps)[..|ps| - 1] == Outcomes(ps[..|ps| - 1]);
    }
  }

  /** Every outcome of the pairs with independent value `x` is an outcome
      of some pair. */
  lemma {:induction false} OutcomesWhereMembers(ps: seq<Pair>, x: Value)
    ensures forall k :: 0 <= k < |OutcomesWhere(ps, x)| ==> OutcomesWhere(ps, x)[k] in Outcomes(ps)
  {
    if ps != [] {
      var init, p := ps[..|ps| - 1], ps[|ps| - 1];
      OutcomesWhereMembers(init, x);
      assert Outcomes(ps) == Outcomes(init) + [p.1];
    }
  }

  lemma {:induction false} IndependentsWhereMembers(ps: seq<Pair>, y: Value)
    ensures forall k :: 0 <= k < |IndependentsWhere(ps, y)| ==> IndependentsWhere(ps, y)[k] in Independents(ps)
  {
    if ps != [] {
      var init, p := ps[..|ps| - 1], ps[|ps| - 1];
      IndependentsWhereMembers(init, y);
      assert Independents(ps) == Independents(init) + [p.0];
    }
  }

  /** The contingency table of `pd.crosstab(..., margins=True)`: inner
      counts, the "All" margin column (row totals), the "All" margin row
      (column totals) and the grand total in its corner. */
  datatype ContingencyTable = ContingencyTable(
    rowLabels: seq<Value>,
    colLabels: seq<Value>,
    cells: seq<seq<nat>>,
    rowTotals: seq<nat>,
    colTotals: seq<nat>,
    grandTotal: nat)

  ghost predicate WellShaped(t: ContingencyTable)
  {
    && |t.cells| == |t.rowLabels| == |t.rowTotals|
    && |t.colTotals| == |t.colLabels|
    && forall i :: 0 <= i < |t.cells| ==> |t.cells[i]| == |t.colLabels|
  }

  /** Column `j` of a table of counts. */
  function ColumnOf(cells: seq<seq<nat>>, j: nat): (col: seq<nat>)
    requires forall i :: 0 <= i < |cells| ==> j < |cells[i]|
    ensures |col| == |cells|
    ensures forall i :: 0 <= i < |cells| ==> col[i] == cells[i][j]
  {
    seq(|cells|, i requires 0 <= i < |cells| => cells[i][j])
  }

  /** The inner counts: row i, column j holds the number of pairs
      (rowLabels[i], colLabels[j]). */
  function Counts(ps: seq<Pair>, rowLabels: seq<Value>, colLabels: seq<Value>): (cells: seq<seq<nat>>)
    ensures |cells| == |rowLabels|
    ensures forall i :: 0 <= i < |rowLabels| ==> |cells[i]| == |colLabels|
    ensures forall i :: 0 <= i < |rowLabels| ==> cells[i] == Tally(OutcomesWhere(ps, rowLabels[i]), colLabels)
  {
    seq(|rowLabels|, i requires 0 <= i < |rowLabels| => Tally(OutcomesWhere(ps, rowLabels[i]), colLabels))
  }

  /** The "All" margin column: the total of each row. */
  function RowSums(cells: seq<seq<nat>>): (totals: seq<nat>)
    ensures |totals| == |cells|
    ensures forall i :: 0 <= i < |cells| ==> totals[i] == Sum(cells[i])
  {
    seq(|cells|, i requires 0 <= i < |cells| => Sum(cells[i]))
  }

  /** The "All" margin row: the total of each of the `width` columns. */
  function ColumnSums(cells: seq<seq<nat>>, width: nat): (totals: seq<nat>)
    requires forall i :: 0 <= i < |cells| ==> |cells[i]| == width
    ensures |totals| == width
    ensures forall j :: 0 <= j < width ==> totals[j] == Sum(ColumnOf(cells, j))
  {
    seq(width, j requires 0 <= j < width => Sum(ColumnOf(cells, j)))
  }

  /** The contingency table of the complete pairs; labels in order of first
      appearance. */
  function Contingency(ps: seq<Pair>): (t: ContingencyTable)
    ensures WellShaped(t)
  {
    var rowLabels := Dedup(Independents(ps));
    var colLabels := Dedup(Outcomes(ps));
    var cells := Counts(ps, rowLabels, colLabels);
    var rowTotals := RowSums(cells);
    ContingencyTable(rowLabels, colLabels, cells, rowTotals, ColumnSums(cells, |colLabels|), Sum(rowTotals))
  }

  /** Every inner cell counts the complete pairs with its two labels. */
  lemma ContingencyCells(ps: seq<Pair>)
    ensures var t := Contingency(ps);
      forall i, j :: 0 <= i < |t.rowLabels| && 0 <= j < |t.colLabels| ==>
        t.cells[i][j] == Occurrences(ps, (t.rowLabels[i], t.colLabels[j]))
  {
    var t := Contingency(ps);
    forall i, j | 0 <= i < |t.rowLabels| && 0 <= j < |t.colLabels|
      ensures t.cells[i][j] == Occurrences(ps, (t.rowLabels[i], t.colLabels[j]))
    {
      OutcomesWhereCount(ps, t.rowLabels[i], t.colLabels[j]);
    }
  }

  /** The labels are exactly the values observed among the pairs. */
  lemma LabelsObserved(ps: seq<Pair>)
    ensures Elements(Contingency(ps).rowLabels) == Elements(Independents(ps))
    ensures Elements(Contingency(ps).colLabels) == Elements(Outcomes(ps))
  {
    DedupElements(Independents(ps));
    DedupElements(Outcomes(ps));
  }

  /** A row of counts as percentages of `total`, the row's own total. */
  function Scaled(row: seq<nat>, total: nat): (pct: seq<real>)
    requires total > 0
    ensures |pct| == |row|
    ensures forall j :: 0 <= j < |row| ==> pct[j] == row[j] as real / total as real * 100.0
  {
    if row == [] then []
    else Scaled(row[..|row| - 1], total) + [row[|row| - 1] as real / total as real * 100.0]
  }

  /** `pd.crosstab(..., normalize='index') * 100`: each row of counts as
      percentages of that row's total. */
  function PercentageTable(t: ContingencyTable): (pct: seq<seq<real>>)
    requires WellShaped(t)
    requires forall i :: 0 <= i < |t.rowTotals| ==> t.rowTotals[i] > 0
    ensures |pct| == |t.rowLabels|
  {
    seq(|t.rowLabels|, i requires 0 <= i < |t.rowLabels| => Scaled(t.cells[i], t.rowTotals[i]))
  }

  /** What `chi2_contingency` returns, taken as an opaque input: the
      statistic and the p-value. */
  datatype ChiSquareTest = ChiSquareTest(statistic: real, pValue: real)

  datatype CrossTabResult = CrossTabResult(
    crosstab: ContingencyTable,
    percentages: seq<seq<real>>,
    chi2Stat: Option<real>,
    pValue: Option<real>,
    /** The square of `cramers_v`: chi2 / (n * (min(rows, cols) - 1)). */
    cramersVSquared: Option<real>,
    sampleSize: nat)

  function Min(a: nat, b: nat): nat
  {
    if a <= b then a else b
  }

  /** The statistics block: all three stay `None` unless the inner table has
      at least two rows and two columns and the chi-square test returns
      (`None` from `chiSquare` is the exception the source swallows). */
  function Statistics(t: ContingencyTable, chiSquare: seq<seq<nat>> -> Option<ChiSquareTest>)
    : (Option<real>, Option<real>, Option<real>)
    requires t.grandTotal > 0
  {
    if |t.rowLabels| > 1 && |t.colLabels| > 1 then
      match chiSquare(t.cells)
      case None => (None, None, None)
      case Some(test) =>
        var n := t.grandTotal as real;
        var k := Min(|t.rowLabels|, |t.colLabels|) - 1;
        (Some(test.statistic), Some(test.pValue), Some(test.statistic / (n * k as real)))
    else (None, None, None)
  }

  /** `create_cross_tabulation(df, outcome_var, independent_var)`. */
  function CreateCrossTabulation(df: Dataset, outcome: string, independent: string,
                                 chiSquare: seq<seq<nat>> -> Option<ChiSquareTest>): Option<CrossTabResult>
  {
    if !HasColumn(df, outcome) || !HasColumn(df, independent) then None
    else
      var ps := CompletePairs(df.rows, independent, outcome);
      if |ps| == 0 then None else Some(Tabulate(ps, chiSquare))
  }

  /** The result dictionary built from a non-empty set of complete pairs. */
  function Tabulate(ps: seq<Pair>, chiSquare: seq<seq<nat>> -> Option<ChiSquareTest>): CrossTabResult
    requires ps != []
  {
    var t := Contingency(ps);
    ContingencyTotals(ps);
    var stats := Statistics(t, chiSquare);
    CrossTabResult(t, PercentageTable(t), stats.0, stats.1, stats.2, |ps|)
  }

  /** The row of label `x` sums to the number of pairs with independent
      value `x`. */
  lemma RowTotal(ps: seq<Pair>, x: Value)
    ensures Sum(Tally(OutcomesWhere(ps, x), Dedup(Outcomes(ps)))) == Occurrences(Independents(ps), x)
  {
    var ow := OutcomesWhere(ps, x);
    var colLabels := Dedup(Outcomes(ps));
    OutcomesWhereMembers(ps, x);
    forall k | 0 <= k < |ow| ensures ow[k] in colLabels {
      DedupMembers(Outcomes(ps), ow[k]);
    }
    TallyCovers(ow, colLabels);
    OutcomesWhereLength(ps, x);
  }

  lemma RowTotals(ps: seq<Pair>)
    ensures var t := Contingency(ps);
      forall i :: 0 <= i < |t.rowLabels| ==> t.rowTotals[i] == Occurrences(Independents(ps), t.rowLabels[i]) > 0
  {
    var t := Contingency(ps);
    forall i | 0 <= i < |t.rowLabels|
      ensures t.rowTotals[i] == Occurrences(Independents(ps), t.rowLabels[i]) > 0
    {
      RowTotal(ps, t.rowLabels[i]);
      DedupMembers(Independents(ps), t.rowLabels[i]);
    }
  }

  lemma RowTotalsAreRowSums(ps: seq<Pair>)
    ensures var t := Contingency(ps);
      forall i :: 0 <= i < |t.rowTotals| ==> t.rowTotals[i] == Sum(t.cells[i]) > 0
  {
    RowTotals(ps);
  }

  /** Column `j` of the inner counts tallies the independent values of the
      pairs with outcome `colLabels[j]`. */
  lemma ColumnIsTally(ps: seq<Pair>, rowLabels: seq<Value>, colLabels: seq<Value>, j: nat)
    requires j < |colLabels|
    ensures ColumnOf(Counts(ps, rowLabels, colLabels), j) == Tally(IndependentsWhere(ps, colLabels[j]), rowLabels)
  {
    var cells := Counts(ps, rowLabels, colLabels);
    var y := colLabels[j];
    var iw := IndependentsWhere(ps, y);
    forall i | 0 <= i < |rowLabels|
      ensures ColumnOf(cells, j)[i] == Tally(iw, rowLabels)[i]
    {
      OutcomesWhereCount(ps, rowLabels[i], y);
      IndependentsWhereCount(ps, rowLabels[i], y);
    }
  }

  /** The column of label `y` sums to the number of pairs with outcome `y`. */
  lemma ColumnTotal(ps: seq<Pair>, y: Value)
    ensures Sum(Tally(IndependentsWhere(ps, y), Dedup(Independents(ps)))) == Occurrences(Outcomes(ps), y)
  {
    var iw := IndependentsWhere(ps, y);
    var rowLabels := Dedup(Independents(ps));
    IndependentsWhereMembers(ps, y);
    forall k | 0 <= k < |iw| ensures iw[k] in rowLabels {
      DedupMembers(Independents(ps), iw[k]);
    }
    TallyCovers(iw, rowLabels);
    IndependentsWhereLength(ps, y);
  }

  lemma ColumnTotals(ps: seq<Pair>)
    ensures var t := Contingency(ps);
      forall j :: 0 <= j < |t.colLabels| ==> t.colTotals[j] == Occurrences(Outcomes(ps), t.colLabels[j]) > 0
  {
    var t := Contingency(ps);
    forall j | 0 <= j < |t.colLabels|
      ensures t.colTotals[j] == Occurrences(Outcomes(ps), t.colLabels[j]) > 0
    {
      ColumnIsTally(ps, t.rowLabels, t.colLabels, j);
      ColumnTotal(ps, t.colLabels[j]);
      DedupMembers(Outcomes(ps), t.colLabels[j]);
    }
  }

  /** The margins of the contingency table: each row total is the number of
      pairs with that independent label, each column total the number with
      that outcome label, and the grand total is the number of pairs, equal
      to the sum of the column totals. */
  lemma ContingencyTotals(ps: seq<Pair>)
    ensures var t := Contingency(ps);
      && (forall i :: 0 <= i < |t.rowLabels| ==>
            t.rowTotals[i] == Occurrences(Independents(ps), t.rowLabels[i]) > 0)
      && (forall j :: 0 <= j < |t.colLabels| ==>
            t.colTotals[j] == Occurrences(Outcomes(ps), t.colLabels[j]) > 0)
      && t.grandTotal == |ps|
      && Sum(t.colTotals) == |ps|
  {
    RowTotals(ps);
    ColumnTotals(ps);
    GrandTotal(ps);
    ColumnTotalsSum(ps);
  }

  lemma GrandTotal(ps: seq<Pair>)
    ensures Contingency(ps).grandTotal == |ps|
  {
    var t := Contingency(ps);
    RowTotals(ps);
    assert t.rowTotals == Tally(Independents(ps), t.rowLabels);
    TallyOfDedup(Independents(ps));
  }

  lemma ColumnTotalsSum(ps: seq<Pair>)
    ensures Sum(Contingency(ps).colTotals) == |ps|
  {
    var t := Contingency(ps);
    ColumnTotals(ps);
    assert t.colTotals == Tally(Outcomes(ps), t.colLabels);
    TallyOfDedup(Outcomes(ps));
  }

  /** One row of percentages sums to 100. */
  lemma {:induction false} ScaledSum(row: seq<nat>, total: nat)
    requires total > 0
    ensures RealSum(Scaled(row, total)) == Sum(row) as real / total as real * 100.0
  {
    if row != [] {
      var init, last := row[..|row| - 1], row[|row| - 1];
      ScaledSum(init, total);
      ShareAdd(Sum(init) as real, last as real, total as real);
    }
  }

  /** `pct` is the row-normalised form of `t`, whose row totals are its row
      sums and never zero: one row per independent
      label and one entry per outcome label; each entry is its cell as a
      share of the row total, lies in [0, 100], and each row sums to 100. */
  ghost predicate NormalisesRows(t: ContingencyTable, pct: seq<seq<real>>)
  {
    && WellShaped(t)
    && (forall i :: 0 <= i < |t.rowLabels| ==> t.rowTotals[i] == Sum(t.cells[i]) > 0)
    && |pct| == |t.rowLabels|
    && (forall i :: 0 <= i < |t.rowLabels| ==> |pct[i]| == |t.colLabels|)
    && (forall i, j :: 0 <= i < |t.rowLabels| && 0 <= j < |t.colLabels| ==>
          && pct[i][j] == t.cells[i][j] as real / t.rowTotals[i] as real * 100.0
          && 0.0 <= pct[i][j] <= 100.0)
    && (forall i :: 0 <= i < |t.rowLabels| ==> RealSum(pct[i]) == 100.0)
  }

  lemma PercentageTableFacts(t: ContingencyTable)
    requires WellShaped(t)
    requires forall i :: 0 <= i < |t.rowTotals| ==> t.rowTotals[i] == Sum(t.cells[i]) > 0
    ensures NormalisesRows(t, PercentageTable(t))
  {
    var pct := PercentageTable(t);
    forall i | 0 <= i < |t.rowLabels|
      ensures RealSum(pct[i]) == 100.0
      ensures forall j :: 0 <= j < |t.colLabels| ==> 0.0 <= pct[i][j] <= 100.0
    {
      ScaledRow(t.cells[i]);
    }
  }

  /** A row scaled by its own total sums to 100 and has every entry in
      [0, 100]. */
  lemma ScaledRow(row: seq<nat>)
    requires Sum(row) > 0
    ensures RealSum(Scaled(row, Sum(row))) == 100.0
    ensures forall j :: 0 <= j < |row| ==> 0.0 <= Scaled(row, Sum(row))[j] <= 100.0
  {
    var total := Sum(row);
    ScaledSum(row, total);
    WholeShare(total);
    var pct := Scaled(row, total);
    forall j | 0 <= j < |row| ensures 0.0 <= pct[j] <= 100.0 {
      CellWithinRow(row, j);
      ShareOfTotal(row[j], total);
    }
  }

  lemma WholeShare(total: nat)
    requires total > 0
    ensures total as real / total as real * 100.0 == 100.0
  {
  }

  /** A single count never exceeds the total of its row. */
  lemma {:induction false} CellWithinRow(row: seq<nat>, j: nat)
    requires j < |row|
    ensures row[j] <= Sum(row)
  {
    if j < |row| - 1 {
      CellWithinRow(row[..|row| - 1], j);
    }
  }

  /** `None` exactly when one of the two columns is absent or no row answers
      both. */
  lemma CrossTabAbsent(df: Dataset, outcome: string, independent: string,
                       chiSquare: seq<seq<nat>> -> Option<ChiSquareTest>)
    ensures CreateCrossTabulation(df, outcome, independent, chiSquare).None? <==>
      || !HasColumn(df, outcome)
      || !HasColumn(df, independent)
      || forall i :: 0 <= i < |df.rows| ==>
           Cell(df.rows[i], independent) == Missing || Cell(df.rows[i], outcome) == Missing
  {
  }

  /** `t` is the contingency table of the pairs `ps`: its labels are
      exactly the values observed, each once, its cells count the pairs,
      each margin is both the sum of its row or column and the number of
      pairs with that label (so never zero), and the grand total is the
      number of pairs, which the column totals also sum to. */
  ghost predicate Tabulates(t: ContingencyTable, ps: seq<Pair>)
  {
    && WellShaped(t)
    && IsDistinct(t.rowLabels) && IsDistinct(t.colLabels)
    && Elements(t.rowLabels) == Elements(Independents(ps))
    && Elements(t.colLabels) == Elements(Outcomes(ps))
    && (forall i, j :: 0 <= i < |t.rowLabels| && 0 <= j < |t.colLabels| ==>
          t.cells[i][j] == Occurrences(ps, (t.rowLabels[i], t.colLabels[j])))
    && (forall i :: 0 <= i < |t.rowLabels| ==>
          t.rowTotals[i] == Sum(t.cells[i]) == Occurrences(Independents(ps), t.rowLabels[i]) > 0)
    && (forall j :: 0 <= j < |t.colLabels| ==>
          t.colTotals[j] == Sum(ColumnOf(t.cells, j)) == Occurrences(Outcomes(ps), t.colLabels[j]) > 0)
    && t.grandTotal == |ps| == Sum(t.colTotals)
  }

  lemma ContingencyTabulates(ps: seq<Pair>)
    ensures Tabulates(Contingency(ps), ps)
  {
    ContingencyCells(ps);
    ContingencyTotals(ps);
    LabelsObserved(ps);
  }

  /** A result's table tabulates the complete pairs, and its sample size is
      their number. */
  lemma CrossTabTable(df: Dataset, outcome: string, independent: string,
                      chiSquare: seq<seq<nat>> -> Option<ChiSquareTest>, r: CrossTabResult)
    requires CreateCrossTabulation(df, outcome, independent, chiSquare) == Some(r)
    ensures Tabulates(r.crosstab, CompletePairs(df.rows, independent, outcome))
    ensures r.sampleSize == |CompletePairs(df.rows, independent, outcome)| > 0
  {
    ContingencyTabulates(CompletePairs(df.rows, independent, outcome));
  }

  /** A result's sample size is the number of rows answering both columns. */
  lemma SampleSizeCountsAnsweringRows(df: Dataset, outcome: string, independent: string,
                                      chiSquare: seq<seq<nat>> -> Option<ChiSquareTest>, r: CrossTabResult)
    requires CreateCrossTabulation(df, outcome, independent, chiSquare) == Some(r)
    ensures r.sampleSize == Occurrences(Answered(df.rows, independent, outcome), true)
  {
    CrossTabTable(df, outcome, independent, chiSquare, r);
    CompletePairsCount(df.rows, independent, outcome);
  }

  /** A result's percentages are the row-normalised table of its counts. */
  lemma CrossTabPercentages(df: Dataset, outcome: string, independent: string,
                            chiSquare: seq<seq<nat>> -> Option<ChiSquareTest>, r: CrossTabResult)
    requires CreateCrossTabulation(df, outcome, independent, chiSquare) == Some(r)
    ensures NormalisesRows(r.crosstab, r.percentages)
  {
    var ps := CompletePairs(df.rows, independent, outcome);
    assert r == Tabulate(ps, chiSquare);
    RowTotalsAreRowSums(ps);
    PercentageTableFacts(Contingency(ps));
  }

  /** The statistics block `(chi2, p, v2)` of a table `t` with `n`
      observations: present exactly when the inner table is at least 2 x 2
      and the test succeeds; it then holds the test's statistic and p-value,
      and the squared Cramér's V times n * (min(rows, cols) - 1) is the
      statistic, so it is non-negative when the statistic is. */
  ghost predicate StatisticsAgree(t: ContingencyTable, n: nat, chiSquare: seq<seq<nat>> -> Option<ChiSquareTest>,
                                  chi2: Option<real>, p: Option<real>, v2: Option<real>)
  {
    var guard := |t.rowLabels| > 1 && |t.colLabels| > 1 && chiSquare(t.cells).Some?;
    && (chi2.Some? <==> guard)
    && (p.Some? <==> guard)
    && (v2.Some? <==> guard)
    && (guard ==>
          var test := chiSquare(t.cells).value;
          var scale := n as real * (Min(|t.rowLabels|, |t.colLabels|) - 1) as real;
          && chi2 == Some(test.statistic)
          && p == Some(test.pValue)
          && scale > 0.0
          && v2.value * scale == test.statistic
          && (test.statistic >= 0.0 ==> v2.value >= 0.0))
  }

  lemma StatisticsFacts(t: ContingencyTable, chiSquare: seq<seq<nat>> -> Option<ChiSquareTest>)
    requires t.grandTotal > 0
    ensures var stats := Statistics(t, chiSquare);
      StatisticsAgree(t, t.grandTotal, chiSquare, stats.0, stats.1, stats.2)
  {
    if |t.rowLabels| > 1 && |t.colLabels| > 1 && chiSquare(t.cells).Some? {
      var test := chiSquare(t.cells).value;
      var scale := t.grandTotal as real * (Min(|t.rowLabels|, |t.colLabels|) - 1) as real;
      PositiveProduct(t.grandTotal, Min(|t.rowLabels|, |t.colLabels|) - 1);
      QuotientTimesDivisor(test.statistic, scale);
    }
  }

  lemma PositiveProduct(a: nat, b: nat)
    requires a > 0 && b > 0
    ensures a as real * b as real > 0.0
  {
  }

  lemma QuotientTimesDivisor(x: real, d: real)
    requires d > 0.0
    ensures x / d * d == x
    ensures x >= 0.0 ==> x / d >= 0.0
  {
  }

  /** A result's statistics agree with the test on its own table and sample
      size. */
  lemma CrossTabStatistics(df: Dataset, outcome: string, independent: string,
                           chiSquare: seq<seq<nat>> -> Option<ChiSquareTest>, r: CrossTabResult)
    requires CreateCrossTabulation(df, outcome, independent, chiSquare) == Some(r)
    ensures StatisticsAgree(r.crosstab, r.sampleSize, chiSquare, r.chi2Stat, r.pValue, r.cramersVSquared)
  {
    var ps := CompletePairs(df.rows, independent, outcome);
    assert r == Tabulate(ps, chiSquare);
    GrandTotal(ps);
    StatisticsFacts(Contingency(ps), chiSquare);
  }

  /** When every complete pair has the same independent value, the inner
      table has a single row, so the statistics stay absent while the tables
      and the sample size are still filled in. */
  lemma SingleCategoryHasNoStatistics(df: Dataset, outcome: string, independent: string,
                                      chiSquare: seq<seq<nat>> -> Option<ChiSquareTest>,
                                      r: CrossTabResult, x: Value)
    requires CreateCrossTabulation(df, outcome, independent, chiSquare) == Some(r)
    requires forall k :: 0 <= k < |CompletePairs(df.rows, independent, outcome)| ==>
      CompletePairs(df.rows, independent, outcome)[k].0 == x
    ensures |r.crosstab.rowLabels| == 1
    ensures r.chi2Stat == None && r.pValue == None && r.cramersVSquared == None
    ensures |r.percentages| == 1 && r.sampleSize == |CompletePairs(df.rows, independent, outcome)| > 0
  {
    var ps := CompletePairs(df.rows, independent, outcome);
    assert r == Tabulate(ps, chiSquare);
    SingleRowLabel(ps, x);
    CrossTabStatistics(df, outcome, independent, chiSquare, r);
  }

  lemma SingleRowLabel(ps: seq<Pair>, x: Value)
    requires ps != []
    requires forall k :: 0 <= k < |ps| ==> ps[k].0 == x
    ensures |Contingency(ps).rowLabels| == 1
  {
    DedupConstant(Independents(ps), x);
  }
}
