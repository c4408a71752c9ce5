/** The column extractors of the recursive variant that feed the charts:
    each emits the head row's contribution before the tail's. */
module FunctionalVisualizer {
  import opened Dicts
  import opened Values
  import opened Numbers

  /** `extract_column(rows, column)`: `rows[i].get(column)` for every row, in
      order, `None` where the row lacks the column. */
  function ExtractColumn(rows: seq<Row>, column: string): (out: seq<Value>)
    ensures |out| == |rows|
    ensures forall i :: 0 <= i < |rows| && Has(rows[i], column) ==> Get(rows[i], column) == Some(out[i])
    ensures forall i :: 0 <= i < |rows| && !Has(rows[i], column) ==> out[i] == Null
  {
    if |rows| == 0 then []
    else [Lookup(rows[0], column, Null)] + ExtractColumn(rows[1..], column)
  }

  /** `extract_numeric_column(rows, column)`: the number in the column for
      every row, in order, zero where the row lacks it or it is no number. */
  function ExtractNumericColumn(rows: seq<Row>, column: string): (out: seq<real>)
    ensures |out| == |rows|
    ensures forall i :: 0 <= i < |rows| ==> out[i] == FieldOrZero(rows[i], column)
  {
    if |rows| == 0 then []
    else [FieldOrZero(rows[0], column)] + ExtractNumericColumn(rows[1..], column)
  }

  /** `extract_two_numeric_columns(rows, col1, col2)`: one pair per row, both
      numbers taken from that row. */
  function ExtractTwoNumericColumns(rows: seq<Row>, col1: string, col2: string): (out: seq<(real, real)>)
    ensures |out| == |rows|
    ensures forall i :: 0 <= i < |rows| ==> out[i] == (FieldOrZero(rows[i], col1), FieldOrZero(rows[i], col2))
  {
    if |rows| == 0 then []
    else [(FieldOrZero(rows[0], col1), FieldOrZero(rows[0], col2))] + ExtractTwoNumericColumns(rows[1..], col1, col2)
  }

  /** Splitting a list of pairs into the list of first and the list of
      second components. */
  function Unzip(ps: seq<(real, real)>): (r: (seq<real>, seq<real>))
    ensures |r.0| == |ps| && |r.1| == |ps|
    ensures forall i :: 0 <= i < |ps| ==> r.0[i] == ps[i].0 && r.1[i] == ps[i].1
  {
    (seq(|ps|, i requires 0 <= i < |ps| => ps[i].0), seq(|ps|, i requires 0 <= i < |ps| => ps[i].1))
  }

  /** The pairs are the two single columns zipped. */
  lemma UnzipTwoColumns(rows: seq<Row>, col1: string, col2: string)
    ensures Unzip(ExtractTwoNumericColumns(rows, col1, col2)) == (ExtractNumericColumn(rows, col1), ExtractNumericColumn(rows, col2))
  {
    var u := Unzip(ExtractTwoNumericColumns(rows, col1, col2));
    assert u.0 == ExtractNumericColumn(rows, col1);
    assert u.1 == ExtractNumericColumn(rows, col2);
  }
}
