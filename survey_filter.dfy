/** `filter_complete_surveys`: keep the respondents whose survey progress is
    100, and report how many rows were dropped and how many there were. */
module SurveyFilter {
  import opened SurveyData

  const ProgressColumn := "Progress"

  /** `df['Progress'] == 100` for one row. A missing progress (NaN) or a
      text label never equals 100. */
  predicate IsComplete(row: Row)
  {
    Cell(row, ProgressColumn) == Num(100)
  }

  /** The complete rows, in their original order. */
  function CompleteRows(rows: seq<Row>): (kept: seq<Row>)
    ensures |kept| <= |rows|
    ensures forall k :: 0 <= k < |kept| ==> IsComplete(kept[k])
  {
    if rows == [] then []
    else
      var last := rows[|rows| - 1];
      CompleteRows(rows[..|rows| - 1]) + (if IsComplete(last) then [last] else [])
  }

  /** The returned triple: the filtered dataset, the number of rows dropped
      and the number of rows before filtering. */
  datatype FilterResult = FilterResult(data: Dataset, excluded: nat, originalCount: nat)

  function FilterCompleteSurveys(df: Dataset): (r: FilterResult)
    ensures r.originalCount == |df.rows|
    ensures r.data.columns == df.columns
    ensures r.excluded == |df.rows| - |r.data.rows|
    ensures !HasColumn(df, ProgressColumn) ==> r.data == df && r.excluded == 0
    ensures HasColumn(df, ProgressColumn) ==> r.data.rows == CompleteRows(df.rows)
  {
    if HasColumn(df, ProgressColumn) then
      var kept := CompleteRows(df.rows);
      FilterResult(Dataset(df.columns, kept), |df.rows| - |kept|, |df.rows|)
    else
      FilterResult(df, 0, |df.rows|)
  }

  /** A row is kept exactly when it is one of the input rows and complete. */
  lemma {:induction false} CompleteRowsMembers(rows: seq<Row>, row: Row)
    ensures row in CompleteRows(rows) <==> row in rows && IsComplete(row)
  {
    if rows != [] {
      var init, last := rows[..|rows| - 1], rows[|rows| - 1];
      CompleteRowsMembers(init, row);
      assert rows == init + [last];
    }
  }

  /** Filtering distributes over concatenation, so the kept rows keep their
      relative order. */
  lemma {:induction false} CompleteRowsAppend(a: seq<Row>, b: seq<Row>)
    ensures CompleteRows(a + b) == CompleteRows(a) + CompleteRows(b)
  {
    if b == [] {
      assert a + b == a;
    } else {
      var init, last := b[..|b| - 1], b[|b| - 1];
      CompleteRowsAppend(a, init);
      assert (a + b)[..|a + b| - 1] == a + init;
    }
  }

  /** Nothing is dropped exactly when every row is complete. */
  lemma {:induction false} CompleteRowsKeepsAll(rows: seq<Row>)
    ensures CompleteRows(rows) == rows <==> forall i :: 0 <= i < |rows| ==> IsComplete(rows[i])
    ensures |CompleteRows(rows)| == |rows| <==> forall i :: 0 <= i < |rows| ==> IsComplete(rows[i])
  {
    if rows != [] {
      var init, last := rows[..|rows| - 1], rows[|rows| - 1];
      CompleteRowsKeepsAll(init);
      if !IsComplete(last) {
        assert |CompleteRows(rows)| < |rows|;
      }
    }
  }

  /** The excluded count is zero exactly when there is no progress column or
      every respondent completed the survey. */
  lemma NothingExcluded(df: Dataset)
    ensures FilterCompleteSurveys(df).excluded == 0 <==>
      !HasColumn(df, ProgressColumn) || forall i :: 0 <= i < |df.rows| ==> IsComplete(df.rows[i])
  {
    CompleteRowsKeepsAll(df.rows);
  }

  /** Filtering an already filtered dataset changes nothing and excludes no
      row. */
  lemma FilterIdempotent(df: Dataset)
    ensures var once := FilterCompleteSurveys(df);
      var twice := FilterCompleteSurveys(once.data);
      twice.data == once.data && twice.excluded == 0
  {
    var once := FilterCompleteSurveys(df);
    if HasColumn(df, ProgressColumn) {
      var kept := once.data.rows;
      assert forall i :: 0 <= i < |kept| ==> IsComplete(kept[i]);
      CompleteRowsKeepsAll(kept);
    }
  }
}
