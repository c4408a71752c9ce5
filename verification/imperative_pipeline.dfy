/** The pipeline stages of the loop variant.  Each stage is a method whose
    loop builds a new list; the source updates the rows in place, which is
    modelled as building updated copies. */
module ImperativePipeline {
  import opened Dicts
  import opened Values
  import opened Numbers
  import opened Grouping
  import Lists
  import Statistics
  import ImperativeUtils
  import FunctionalPipeline

  // ---- Cleaning ----

  /** Some required field is absent, `""` or `None`. */
  predicate AnyMissing(r: Row, required: seq<string>) {
    exists i :: 0 <= i < |required| && Missing(r, required[i])
  }

  /** The `for f in required_fields` loop, which stops at the first missing
      field. */
  method FindMissing(r: Row, required: seq<string>) returns (missing: bool)
    ensures missing <==> AnyMissing(r, required)
  {
    missing := false;
    var i := 0;
    while i < |required|
      invariant 0 <= i <= |required|
      invariant forall j :: 0 <= j < i ==> !Missing(r, required[j])
    {
      if Missing(r, required[i]) {
        missing := true;
        break;
      }
      i := i + 1;
    }
  }

  /** The defaults loop, `for k, v in fill_values.items()`: every default
      whose field is absent, `""` or `None` is set, an absent field being
      appended.  The fields the row already has keep their places. */
  function FillDefaults(r: Row, fill: Row): (s: Row)
    ensures |r| <= |s| && forall i :: 0 <= i < |r| ==> s[i].0 == r[i].0
  {
    if |fill| == 0 then r
    else
      var init: Row := fill[..|fill| - 1];
      var (k, v) := fill[|fill| - 1];
      var prev := FillDefaults(r, init);
      SetKeepsPositions(prev, k, v);
      if Missing(prev, k) then Set(prev, k, v) else prev
  }

  /** A field takes its default exactly when there is one and the row lacks
      a usable value; every other field keeps its value. */
  lemma {:induction false} FillDefaultsGet(r: Row, fill: Row, f: string)
    ensures Get(FillDefaults(r, fill), f) == if Has(fill, f) && Missing(r, f) then Get(fill, f) else Get(r, f)
  {
    if |fill| > 0 {
      var init: Row := fill[..|fill| - 1];
      var (k, v) := fill[|fill| - 1];
      FillStep(fill, k, v);
      FillDefaultsGet(r, init, f);
      FillDefaultsGet(r, init, k);
    }
  }

  /** Defaults for fields the row already has add no field. */
  lemma {:induction false} FillDefaultsKeys(r: Row, fill: Row)
    requires forall k :: Has(fill, k) ==> Has(r, k)
    ensures Keys(FillDefaults(r, fill)) == Keys(r)
  {
    if |fill| > 0 {
      var init: Row := fill[..|fill| - 1];
      var (k, v) := fill[|fill| - 1];
      FillStep(fill, k, v);
      forall k' | Has(init, k') ensures Has(r, k') {
        assert Get(fill, k') == Get(init, k');
      }
      FillDefaultsKeys(r, init);
      assert Get(fill, k).Some? && Get(r, k).Some?;
    }
  }

  /** The last default's field is not among the earlier defaults. */
  lemma FillStep(fill: Row, k: string, v: Value)
    requires |fill| > 0 && fill[|fill| - 1] == (k, v)
    ensures !Has(fill[..|fill| - 1], k)
    ensures forall k' :: Get(fill, k') == if k' == k then Some(v) else Get(fill[..|fill| - 1], k')
  {
    var init := fill[..|fill| - 1];
    assert fill == init + [(k, v)];
    assert k !in Keys(init) by {
      forall i | 0 <= i < |init| ensures Keys(init)[i] != k {
        assert fill[i].0 != fill[|fill| - 1].0;
      }
    }
    forall k' ensures Get(fill, k') == if k' == k then Some(v) else Get(init, k') {
      GetSnoc(init, k, v, k');
    }
  }

  /** The defaults loop as a method. */
  method FillRow(r: Row, fill: Row) returns (s: Row)
    ensures s == FillDefaults(r, fill)
  {
    s := r;
    for j := 0 to |fill|
      invariant s == FillDefaults(r, fill[..j])
    {
      FillPrefix(r, fill, j);
      var (k, v) := fill[j];
      if Missing(s, k) {
        s := Set(s, k, v);
      }
    }
    assert fill[..|fill|] == fill;
  }

  /** One more turn of the defaults loop handles one more default. */
  lemma FillPrefix(r: Row, fill: Row, j: int)
    requires 0 <= j < |fill|
    ensures UniqueKeys(fill[..j]) && UniqueKeys(fill[..j + 1])
    ensures var prev := FillDefaults(r, fill[..j]);
      FillDefaults(r, fill[..j + 1]) == if Missing(prev, fill[j].0) then Set(prev, fill[j].0, fill[j].1) else prev
  {
    var p := fill[..j + 1];
    assert p[..|p| - 1] == fill[..j];
    assert p[|p| - 1] == fill[j];
  }

  /** Whether a row survives: only the `"remove"` strategy drops rows, and
      only those missing a required field. */
  function Keeps(strategy: string, required: seq<string>): Row -> bool {
    (r: Row) => !(strategy == "remove" && AnyMissing(r, required))
  }

  /** What becomes of a surviving row: the `"fill"` strategy with some
      defaults fills them in; otherwise the row is copied unchanged. */
  function Repair(strategy: string, fill: Row): Row -> Row {
    (r: Row) => if strategy == "fill" && |fill| > 0 then FillDefaults(r, fill) else r
  }

  /** The body of the row loop: whether the row survives, and the copy
      that is appended when it does. */
  method HandleRow(r: Row, strategy: string, fill: Row, required: seq<string>) returns (keep: bool, row: Row)
    ensures keep == Keeps(strategy, required)(r)
    ensures keep ==> row == Repair(strategy, fill)(r)
  {
    row := r;
    var missing := false;
    if |required| > 0 {
      missing := FindMissing(row, required);
    }
    keep := !(missing && strategy == "remove");
    if keep && strategy == "fill" && |fill| > 0 {
      row := FillRow(row, fill);
    }
  }

  /** `handle_missing(rows, strategy, fill_values, required_fields)`: the
      surviving rows, in their order, each repaired.  With a strategy other
      than `"fill"` and `"remove"` the rows come back unchanged.  Omitted
      `fill_values` and `required_fields` are empty. */
  method HandleMissing(rows: seq<Row>, strategy: string, fill: Row, required: seq<string>) returns (out: seq<Row>)
    ensures out == Lists.Map(Repair(strategy, fill), Lists.Filter(Keeps(strategy, required), rows))
    ensures strategy != "fill" && strategy != "remove" ==> out == rows
    ensures strategy == "remove" && (forall i :: 0 <= i < |rows| ==> !AnyMissing(rows[i], required)) ==> out == rows
  {
    out := [];
    for i := 0 to |rows|
      invariant out == Lists.Map(Repair(strategy, fill), Lists.Filter(Keeps(strategy, required), rows[..i]))
    {
      var keep, row := HandleRow(rows[i], strategy, fill, required);
      Lists.TakeSnoc(rows, i);
      Lists.MapFilterSnoc(Repair(strategy, fill), Keeps(strategy, required), rows[..i], rows[i]);
      if keep {
        out := out + [row];
      }
    }
    assert rows[..|rows|] == rows;
    if strategy != "fill" && (strategy != "remove" || forall i :: 0 <= i < |rows| ==> !AnyMissing(rows[i], required)) {
      Unchanged(rows, strategy, fill, required);
    }
  }

  /** A strategy that fills nothing, and that removes nothing because either
      it is not `"remove"` or no row misses a required field, leaves the rows
      as they are. */
  lemma Unchanged(rows: seq<Row>, strategy: string, fill: Row, required: seq<string>)
    requires strategy != "fill"
    requires strategy == "remove" ==> forall i :: 0 <= i < |rows| ==> !AnyMissing(rows[i], required)
    ensures Lists.Map(Repair(strategy, fill), Lists.Filter(Keeps(strategy, required), rows)) == rows
  {
    Lists.FilterAll(Keeps(strategy, required), rows);
  }

  // ---- Field normalisation ----

  function UpdateListed(fields: seq<string>, g: Value -> Value): (string, Value) -> Value {
    (k: string, v: Value) => if k in fields then g(v) else v
  }

  /** The row with every listed field it has replaced by `g` of its value;
      the fields and their order stay as they are. */
  function Updated(r: Row, fields: seq<string>, g: Value -> Value): (s: Row)
    ensures Keys(s) == Keys(r)
    ensures forall k :: Has(r, k) && k in fields ==> Get(s, k) == Some(g(Get(r, k).value))
    ensures forall k :: k !in fields ==> Get(s, k) == Get(r, k)
  {
    MapValues(r, UpdateListed(fields, g))
  }

  /** `for f in fields: if f in r: r[f] = g(r[f])`.  A field listed twice is
      updated twice, which changes nothing more because `g` is
      idempotent. */
  method UpdateFields(r: Row, fields: seq<string>, g: Value -> Value) returns (s: Row)
    requires forall v :: g(g(v)) == g(v)
    ensures s == Updated(r, fields, g)
  {
    s := r;
    for j := 0 to |fields|
      invariant Keys(s) == Keys(r)
      invariant forall k :: Get(s, k) == if Has(r, k) && k in fields[..j] then Some(g(Get(r, k).value)) else Get(r, k)
    {
      var f := fields[j];
      assert fields[..j + 1] == fields[..j] + [f];
      if Has(s, f) {
        s := Set(s, f, g(Get(s, f).value));
      }
    }
    assert fields[..|fields|] == fields;
    Extensionality(s, Updated(r, fields, g));
  }

  /** `standardize_dates(rows, date_fields)`: every listed field a row has is
      replaced by `parse_date` of its value. */
  method StandardizeDates(rows: seq<Row>, dateFields: seq<string>) returns (out: seq<Row>)
    ensures |out| == |rows|
    ensures forall i :: 0 <= i < |rows| ==> out[i] == Updated(rows[i], dateFields, ImperativeUtils.ParseDate)
  {
    forall v ensures ImperativeUtils.ParseDate(ImperativeUtils.ParseDate(v)) == ImperativeUtils.ParseDate(v) {
      ImperativeUtils.ParseDateIdempotent(v);
    }
    out := [];
    for i := 0 to |rows|
      invariant |out| == i
      invariant forall j :: 0 <= j < i ==> out[j] == Updated(rows[j], dateFields, ImperativeUtils.ParseDate)
    {
      var s := UpdateFields(rows[i], dateFields, ImperativeUtils.ParseDate);
      out := out + [s];
    }
  }

  /** `round(safe_float(v), precision)` on a field value. */
  function RoundTo(precision: int): Value -> Value {
    (v: Value) => RoundValue(v, precision)
  }

  /** `standardize_numbers(rows, numeric_fields, precision)`: the same rows
      as the recursive variant's. */
  method StandardizeNumbers(rows: seq<Row>, numericFields: seq<string>, precision: int) returns (out: seq<Row>)
    ensures |out| == |rows|
    ensures forall i :: 0 <= i < |rows| ==> out[i] == FunctionalPipeline.StandardizeNumbersRow(numericFields, precision, rows[i])
  {
    forall v ensures RoundTo(precision)(RoundTo(precision)(v)) == RoundTo(precision)(v) {
      RoundValueIdempotent(v, precision);
    }
    out := [];
    for i := 0 to |rows|
      invariant |out| == i
      invariant forall j :: 0 <= j < i ==> out[j] == FunctionalPipeline.StandardizeNumbersRow(numericFields, precision, rows[j])
    {
      var s := UpdateFields(rows[i], numericFields, RoundTo(precision));
      NumbersAgree(rows[i], numericFields, precision);
      out := out + [s];
    }
  }

  /** Rounding the listed fields in place gives the recursive variant's row. */
  lemma NumbersAgree(r: Row, numericFields: seq<string>, precision: int)
    ensures Updated(r, numericFields, RoundTo(precision)) == FunctionalPipeline.StandardizeNumbersRow(numericFields, precision, r)
  {
    var a, b := Updated(r, numericFields, RoundTo(precision)), FunctionalPipeline.StandardizeNumbersRow(numericFields, precision, r);
    forall k ensures Get(a, k) == Get(b, k) {
    }
    Extensionality(a, b);
  }

  // ---- Transformation ----

  /** `filter_rows(rows, condition_fn)`: the rows meeting the condition, in
      order. */
  method FilterRows(rows: seq<Row>, cond: Row -> bool) returns (out: seq<Row>)
    ensures out == Lists.Filter(cond, rows)
  {
    out := [];
    for i := 0 to |rows|
      invariant out == Lists.Filter(cond, rows[..i])
    {
      Lists.TakeSnoc(rows, i);
      Lists.FilterSnoc(cond, rows[..i], rows[i]);
      if cond(rows[i]) {
        out := out + [rows[i]];
      }
    }
    assert rows[..|rows|] == rows;
  }

  /** `compute_sales_growth(rows, current_column, previous_column,
      new_column)`: the same rows as the recursive variant's. */
  method ComputeSalesGrowth(rows: seq<Row>, current: string, previous: string, newColumn: string) returns (out: seq<Row>)
    ensures |out| == |rows|
    ensures forall i :: 0 <= i < |rows| ==> out[i] == FunctionalPipeline.GrowthRow(rows[i], current, previous, newColumn)
  {
    var f := FunctionalPipeline.GrowthRowOf(current, previous, newColumn);
    out := [];
    for i := 0 to |rows|
      invariant out == Lists.Map(f, rows[..i])
    {
      var s := GrowthOf(rows[i], current, previous, newColumn);
      Lists.TakeSnoc(rows, i);
      Lists.MapSnoc(f, rows[..i], rows[i]);
      out := out + [s];
    }
    assert rows[..|rows|] == rows;
  }

  /** The loop body of `compute_sales_growth`: the growth is set to zero
      when the previous value is zero, and rounded to four places
      otherwise. */
  method GrowthOf(r: Row, current: string, previous: string, newColumn: string) returns (s: Row)
    ensures s == FunctionalPipeline.GrowthRow(r, current, previous, newColumn)
  {
    var cur := FieldOrZero(r, current);
    var prev := FieldOrZero(r, previous);
    var growth := 0.0;
    if prev != 0.0 {
      growth := Round((cur - prev) / prev, 4);
      FunctionalPipeline.GrowthChange(cur, prev);
    }
    s := Set(r, newColumn, Num(growth));
  }

  // ---- Aggregation ----

  /** `aggregate_sum_by_key(rows, key_field, sum_field)`: a `defaultdict`
      accumulates the sums, then one output row per key is built; the same
      rows as the recursive variant's. */
  method AggregateSumByKey(rows: seq<Row>, keyField: string, sumField: string) returns (out: seq<Row>)
    ensures out == FunctionalPipeline.AggregateSumByKey(rows, keyField, sumField)
  {
    var agg: seq<(Value, real)> := [];
    GroupedEmpty<Value>();
    for i := 0 to |rows|
      invariant agg == Grouped(FunctionalPipeline.Entries(rows[..i], keyField, sumField))
    {
      var k := Lookup(rows[i], keyField, Str("UNKNOWN"));
      var val := FieldOrZero(rows[i], sumField);
      Lists.TakeSnoc(rows, i);
      FunctionalPipeline.EntriesSnoc(rows[..i], rows[i], keyField, sumField);
      AddToGrouped(FunctionalPipeline.Entries(rows[..i], keyField, sumField), k, val);
      agg := AddTo(agg, k, val);
    }
    assert rows[..|rows|] == rows;
    out := [];
    for j := 0 to |agg|
      invariant out == Lists.Map(FunctionalPipeline.FormatOutput(sumField), agg[..j])
    {
      Lists.TakeSnoc(agg, j);
      Lists.MapSnoc(FunctionalPipeline.FormatOutput(sumField), agg[..j], agg[j]);
      out := out + [FunctionalPipeline.FormatOutput(sumField)(agg[j])];
    }
    assert agg[..|agg|] == agg;
    FunctionalPipeline.AggregateSumByKeyGrouped(rows, keyField, sumField);
  }

  // ---- Analysis ----

  /** `float(r.get(column))` succeeds. */
  function Parses(column: string): Row -> bool {
    (r: Row) => ParseNum(Lookup(r, column, Null)).Some?
  }

  /** The numbers `numeric_column_list` collects: one per row whose field
      `float()` reads, in row order; an absent field, `None` and text that
      is no number are skipped. */
  function ParsedColumn(rows: seq<Row>, column: string): (vals: seq<real>)
    ensures |vals| == Lists.Count(Parses(column), rows)
  {
    Lists.Map(FunctionalPipeline.ColumnNumber(column), Lists.Filter(Parses(column), rows))
  }

  /** `numeric_column_list(rows, column)`: the loop with `try`/`except`. */
  method NumericColumnList(rows: seq<Row>, column: string) returns (out: seq<real>)
    ensures out == ParsedColumn(rows, column)
  {
    out := [];
    for i := 0 to |rows|
      invariant out == Lists.Map(FunctionalPipeline.ColumnNumber(column), Lists.Filter(Parses(column), rows[..i]))
    {
      var ok, x := ReadNumber(rows[i], column);
      Lists.TakeSnoc(rows, i);
      Lists.MapFilterSnoc(FunctionalPipeline.ColumnNumber(column), Parses(column), rows[..i], rows[i]);
      if ok {
        out := out + [x];
      }
    }
    assert rows[..|rows|] == rows;
  }

  /** The `try: float(r.get(column))` of one row: whether it succeeds, and
      the number it reads. */
  method ReadNumber(r: Row, column: string) returns (ok: bool, x: real)
    ensures ok == Parses(column)(r)
    ensures ok ==> x == FunctionalPipeline.ColumnNumber(column)(r)
  {
    var parsed := ParseNum(Lookup(r, column, Null));
    ok := parsed.Some?;
    x := parsed.GetOr(0.0);
  }

  /** The summary `analyze_statistics` stores for a column. */
  function SummaryFor(rows: seq<Row>): string -> Statistics.Summary {
    (column: string) => Statistics.Summarize(ParsedColumn(rows, column))
  }

  /** `analyze_statistics(rows, numeric_columns)`: one summary per distinct
      requested column, in order of first mention, each the summary of the
      numbers `float()` reads in that column. */
  method AnalyzeStatistics(rows: seq<Row>, cols: seq<string>) returns (result: seq<(string, Statistics.Summary)>)
    ensures Keys(result) == Lists.Dedup(cols)
    ensures forall c :: c in cols ==> Get(result, c) == Some(Statistics.Summarize(ParsedColumn(rows, c)))
    ensures forall c :: c !in cols ==> !Has(result, c)
  {
    result := [];
    TabulateEmpty(SummaryFor(rows));
    for j := 0 to |cols|
      invariant result == Tabulate(cols[..j], SummaryFor(rows))
    {
      var s := SummarizeColumn(rows, cols[j]);
      Lists.TakeSnoc(cols, j);
      SetTabulate(cols[..j], SummaryFor(rows), cols[j]);
      result := Set(result, cols[j], s);
    }
    assert cols[..|cols|] == cols;
    forall c ensures Get(result, c) == if c in cols then Some(Statistics.Summarize(ParsedColumn(rows, c))) else None {
      TabulateGet(cols, SummaryFor(rows), c);
    }
  }

  /** The loop body of `analyze_statistics`: `stats_summary` of the column's
      numbers. */
  method SummarizeColumn(rows: seq<Row>, column: string) returns (s: Statistics.Summary)
    ensures s == SummaryFor(rows)(column)
  {
    var vals := NumericColumnList(rows, column);
    s := ImperativeUtils.StatsSummary(Lists.Map(Wrap, vals));
    PresentWrap(vals);
  }
}
