/** The column extractors of the loop variant: each appends one entry per
    row to an output list. */
module ImperativeVisualizer {
  import opened Dicts
  import opened Values
  import opened Numbers
  import FunctionalVisualizer

  /** `extract_column(rows, column)`; the same list as the recursive
      variant's. */
  method ExtractColumn(rows: seq<Row>, column: string) returns (out: seq<Value>)
    ensures out == FunctionalVisualizer.ExtractColumn(rows, column)
  {
    out := [];
    for i := 0 to |rows|
      invariant |out| == i
      invariant forall j :: 0 <= j < i ==> out[j] == Lookup(rows[j], column, Null)
    {
      out := out + [Lookup(rows[i], column, Null)];
    }
  }

  /** `extract_numeric_column(rows, column)`; the same list as the recursive
      variant's. */
  method ExtractNumericColumn(rows: seq<Row>, column: string) returns (out: seq<real>)
    ensures out == FunctionalVisualizer.ExtractNumericColumn(rows, column)
  {
    out := [];
    for i := 0 to |rows|
      invariant |out| == i
      invariant forall j :: 0 <= j < i ==> out[j] == FieldOrZero(rows[j], column)
    {
      out := out + [FieldOrZero(rows[i], column)];
    }
  }

  /** `extract_two_numeric_columns(rows, col1, col2)`: two lists as long as
      the rows, entry `i` of each taken from row `i`; together they are the
      recursive variant's pairs, unzipped. */
  method ExtractTwoNumericColumns(rows: seq<Row>, col1: string, col2: string) returns (xs: seq<real>, ys: seq<real>)
    ensures |xs| == |rows| && |ys| == |rows|
    ensures (xs, ys) == FunctionalVisualizer.Unzip(FunctionalVisualizer.ExtractTwoNumericColumns(rows, col1, col2))
  {
    xs, ys := [], [];
    for i := 0 to |rows|
      invariant |xs| == i && |ys| == i
      invariant forall j :: 0 <= j < i ==> xs[j] == FieldOrZero(rows[j], col1) && ys[j] == FieldOrZero(rows[j], col2)
    {
      xs := xs + [FieldOrZero(rows[i], col1)];
      ys := ys + [FieldOrZero(rows[i], col2)];
    }
    var u := FunctionalVisualizer.Unzip(FunctionalVisualizer.ExtractTwoNumericColumns(rows, col1, col2));
    assert xs == u.0;
    assert ys == u.1;
  }
}
