/** The survey dataset as the statistics engine sees it: an ordered list of
    respondent rows, each a mapping from column name to a cell value, and a
    schema that lists the columns in order with their kind. */
module SurveyData {
  import opened Counting

  datatype Option<+T> = None | Some(value: T)

  /** A cell: missing (NaN), a number, or a text label. Binary indicators
      are the numbers 0 and 1. */
  datatype Value = Missing | Num(n: int) | Label(text: string)

  /** Whether the engine treats a column as a 0/1 indicator or as labels.
      This stands for the source's test on the column's dtype and number of
      distinct values, taken here as given. */
  datatype Kind = Binary | Categorical

  datatype Column = Column(name: string, kind: Kind)

  type Row = map<string, Value>

  datatype Dataset = Dataset(columns: seq<Column>, rows: seq<Row>)

  /** A row's value in a column; a column the row does not mention is missing. */
  function Cell(row: Row, column: string): Value
  {
    if column in row then row[column] else Missing
  }

  /** The column `df[column]`, one cell per row, in row order. */
  function Values(df: Dataset, column: string): (vals: seq<Value>)
    ensures |vals| == |df.rows|
    ensures forall i :: 0 <= i < |df.rows| ==> vals[i] == Cell(df.rows[i], column)
  {
    seq(|df.rows|, i requires 0 <= i < |df.rows| => Cell(df.rows[i], column))
  }

  /** `column in df.columns`. */
  predicate HasColumn(df: Dataset, column: string)
  {
    exists i :: 0 <= i < |df.columns| && df.columns[i].name == column
  }

  /** `notna().sum()`: the number of non-missing cells. */
  function NonMissingCount(vals: seq<Value>): (n: nat)
    ensures n == |vals| - Occurrences(vals, Missing)
  {
    if vals == [] then 0
    else NonMissingCount(vals[..|vals| - 1]) + (if vals[|vals| - 1] == Missing then 0 else 1)
  }

  /** `sum()`: the sum of the numeric cells, skipping missing ones. */
  function SumNumeric(vals: seq<Value>): int
  {
    if vals == [] then 0
    else SumNumeric(vals[..|vals| - 1]) + (if vals[|vals| - 1].Num? then vals[|vals| - 1].n else 0)
  }

  /** Every non-missing cell is 0 or 1: a well-formed binary indicator. */
  ghost predicate BinaryValued(vals: seq<Value>)
  {
    forall i :: 0 <= i < |vals| ==> vals[i] in {Missing, Num(0), Num(1)}
  }

  /** On a 0/1 column the sum is the number of ones, and it does not exceed
      the number of non-missing cells. */
  lemma {:induction false} SumOfBinaryCountsOnes(vals: seq<Value>)
    requires BinaryValued(vals)
    ensures SumNumeric(vals) == Occurrences(vals, Num(1))
    ensures Occurrences(vals, Num(1)) <= NonMissingCount(vals)
  {
    if vals != [] {
      SumOfBinaryCountsOnes(vals[..|vals| - 1]);
    }
  }

  /** Counting cells whose value is in a set that excludes Missing counts no
      more than the non-missing cells; exactly those when the set holds
      every non-missing value of the column. */
  lemma {:induction false} CountInNonMissing(vals: seq<Value>, keys: set<Value>)
    requires Missing !in keys
    ensures CountIn(vals, keys) <= NonMissingCount(vals)
    ensures (forall i :: 0 <= i < |vals| && vals[i] != Missing ==> vals[i] in keys) ==>
              CountIn(vals, keys) == NonMissingCount(vals)
  {
    if vals != [] {
      CountInNonMissing(vals[..|vals| - 1], keys);
    }
  }
}
