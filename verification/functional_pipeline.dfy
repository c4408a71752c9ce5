/** The pipeline stages of the recursive variant.  Every stage is built from
    two tail-recursive patterns with an accumulator, `recursive_map` and
    `recursive_filter`, and returns new rows. */
module FunctionalPipeline {
  import opened Dicts
  import opened Values
  import opened Numbers
  import opened Grouping
  import Lists
  import Statistics
  import FunctionalUtils

  // ---- The recursive patterns ----

  /** `recursive_map(func, lst, acc)`: the accumulator followed by `func`
      applied to each element of `lst`, in order. */
  function RecursiveMap<A, B>(f: A --> B, lst: seq<A>, acc: seq<B>): (r: seq<B>)
    requires forall i :: 0 <= i < |lst| ==> f.requires(lst[i])
    ensures |r| == |acc| + |lst|
    ensures r[..|acc|] == acc
    ensures forall i :: 0 <= i < |lst| ==> r[|acc| + i] == f(lst[i])
  {
    if |lst| == 0 then acc
    else RecursiveMap(f, lst[1..], acc + [f(lst[0])])
  }

  /** Started with an empty accumulator, `recursive_map` is the element-wise
      map. */
  lemma MapFromEmpty<A, B>(f: A -> B, lst: seq<A>)
    ensures RecursiveMap(f, lst, []) == Lists.Map(f, lst)
  {
    var r := RecursiveMap(f, lst, []);
    assert forall i :: 0 <= i < |lst| ==> r[0 + i] == r[i];
  }

  /** `recursive_filter(condition_fn, lst, acc)`: the accumulator followed by
      the elements of `lst` that satisfy the condition, in order. */
  function RecursiveFilter<T(==)>(p: T -> bool, lst: seq<T>, acc: seq<T>): (r: seq<T>)
    ensures r == acc + Lists.Filter(p, lst)
  {
    if |lst| == 0 then acc
    else
      assert p(lst[0]) ==> Lists.Filter(p, lst) == [lst[0]] + Lists.Filter(p, lst[1..]);
      assert p(lst[0]) ==> (acc + [lst[0]]) + Lists.Filter(p, lst[1..]) == acc + ([lst[0]] + Lists.Filter(p, lst[1..]));
      RecursiveFilter(p, lst[1..], if p(lst[0]) then acc + [lst[0]] else acc)
  }

  /** `filter_rows(rows, condition_fn)` */
  function FilterRows(rows: seq<Row>, cond: Row -> bool): (out: seq<Row>)
    ensures out == Lists.Filter(cond, rows)
  {
    RecursiveFilter(cond, rows, [])
  }

  /** A condition every row meets keeps every row. */
  lemma FilterRowsAll(rows: seq<Row>, cond: Row -> bool)
    requires forall i :: 0 <= i < |rows| ==> cond(rows[i])
    ensures FilterRows(rows, cond) == rows
  {
    Lists.FilterAll(cond, rows);
  }

  // ---- Cleaning ----

  /** The value `fill_row` keeps for field `k`: a `None` or `""` is replaced
      by the default for `k` when there is one. */
  function FillValue(fill: seq<(string, Value)>): (string, Value) -> Value {
    (k: string, v: Value) => if IsBlank(v) then Lookup(fill, k, v) else v
  }

  /** `fill_row(r)`: the same fields in the same order; a blank field with a
      default gets the default, every other field keeps its value.  A field
      the row lacks is not added. */
  function FillRow(fill: Row, r: Row): (s: Row)
    ensures Keys(s) == Keys(r)
    ensures forall k :: Has(r, k) && IsBlank(Get(r, k).value) && Has(fill, k) ==> Get(s, k) == Get(fill, k)
    ensures forall k :: Has(r, k) && (!IsBlank(Get(r, k).value) || !Has(fill, k)) ==> Get(s, k) == Get(r, k)
    ensures forall k :: !Has(r, k) ==> !Has(s, k)
  {
    MapValues(r, FillValue(fill))
  }

  /** `handle_missing(rows, fill_values)`: `fill_row` on every row, in order.
      Omitted `fill_values` is the empty dictionary. */
  function HandleMissing(rows: seq<Row>, fill: Row): (out: seq<Row>)
    ensures |out| == |rows|
    ensures forall i :: 0 <= i < |rows| ==> out[i] == FillRow(fill, rows[i])
  {
    var f := FillRowOf(fill);
    MapFromEmpty(f, rows);
    RecursiveMap(f, rows, [])
  }

  function FillRowOf(fill: Row): Row -> Row {
    (r: Row) => FillRow(fill, r)
  }

  /** Repairing a repaired row changes nothing more. */
  lemma FillRowIdempotent(fill: Row, r: Row)
    requires forall k :: Has(fill, k) ==> !IsBlank(Get(fill, k).value)
    ensures FillRow(fill, FillRow(fill, r)) == FillRow(fill, r)
  {
    var s := FillRow(fill, r);
    var t := FillRow(fill, s);
    forall k ensures Get(t, k) == Get(s, k) {
    }
    Extensionality(t, s);
  }

  // ---- Field normalisation ----

  /** The date fields of a row hold text or `None`: the domain of the
      recursive `parse_date`. */
  predicate DatesAreText(r: Row, dateFields: seq<string>) {
    forall k :: k in dateFields && Has(r, k) ==> !Get(r, k).value.Num?
  }

  function DateField(dateFields: seq<string>): (string, Value) --> Value {
    (k: string, v: Value) requires k in dateFields ==> !v.Num? =>
      if k in dateFields then FunctionalUtils.ParseDate(v) else v
  }

  /** `standardize_row(r)` of `standardize_dates`: every listed field the row
      has is replaced by `parse_date` of its value; the fields and their
      order stay as they are.  A field listed twice is parsed once, from the
      original row. */
  function StandardizeDatesRow(dateFields: seq<string>, r: Row): (s: Row)
    requires DatesAreText(r, dateFields)
    ensures Keys(s) == Keys(r)
    ensures forall k :: Has(r, k) && k in dateFields ==> Get(s, k) == Some(FunctionalUtils.ParseDate(Get(r, k).value))
    ensures forall k :: k !in dateFields ==> Get(s, k) == Get(r, k)
  {
    forall i | 0 <= i < |r| ensures DateField(dateFields).requires(r[i].0, r[i].1) {
      GetAt(r, i);
    }
    MapValues(r, DateField(dateFields))
  }

  /** `standardize_dates(rows, date_fields)` */
  function StandardizeDates(rows: seq<Row>, dateFields: seq<string>): (out: seq<Row>)
    requires forall i :: 0 <= i < |rows| ==> DatesAreText(rows[i], dateFields)
    ensures |out| == |rows|
    ensures forall i :: 0 <= i < |rows| ==> out[i] == StandardizeDatesRow(dateFields, rows[i])
  {
    var f := DatesRowOf(dateFields);
    assert forall i :: 0 <= i < |rows| ==> f.requires(rows[i]);
    var out := RecursiveMap(f, rows, []);
    assert forall i :: 0 <= i < |rows| ==> out[i] == f(rows[i]);
    out
  }

  function DatesRowOf(dateFields: seq<string>): Row --> Row {
    (r: Row) requires DatesAreText(r, dateFields) => StandardizeDatesRow(dateFields, r)
  }

  /** Standardising the dates of a standardised row changes nothing. */
  lemma StandardizeDatesIdempotent(dateFields: seq<string>, r: Row)
    requires DatesAreText(r, dateFields)
    ensures DatesAreText(StandardizeDatesRow(dateFields, r), dateFields)
    ensures StandardizeDatesRow(dateFields, StandardizeDatesRow(dateFields, r)) == StandardizeDatesRow(dateFields, r)
  {
    var s := StandardizeDatesRow(dateFields, r);
    var t := StandardizeDatesRow(dateFields, s);
    forall k ensures Get(t, k) == Get(s, k) {
      if Has(r, k) && k in dateFields {
        FunctionalUtils.ParseDateIdempotent(Get(r, k).value);
      }
    }
    Extensionality(t, s);
  }

  function NumberField(numericFields: seq<string>, precision: int): (string, Value) -> Value {
    (k: string, v: Value) => if k in numericFields then RoundValue(v, precision) else v
  }

  /** `standardize_row(r)` of `standardize_numbers`: every listed field the
      row has becomes `round(safe_float(v), precision)`; other fields, and
      the order, stay as they are. */
  function StandardizeNumbersRow(numericFields: seq<string>, precision: int, r: Row): (s: Row)
    ensures Keys(s) == Keys(r)
    ensures forall k :: Has(r, k) && k in numericFields ==>
      Get(s, k) == Some(Num(Round(SafeFloat(Get(r, k).value, 0.0), precision)))
    ensures forall k :: k !in numericFields ==> Get(s, k) == Get(r, k)
  {
    MapValues(r, NumberField(numericFields, precision))
  }

  /** `standardize_numbers(rows, numeric_fields, precision)` */
  function StandardizeNumbers(rows: seq<Row>, numericFields: seq<string>, precision: int): (out: seq<Row>)
    ensures |out| == |rows|
    ensures forall i :: 0 <= i < |rows| ==> out[i] == StandardizeNumbersRow(numericFields, precision, rows[i])
  {
    var f := NumbersRowOf(numericFields, precision);
    MapFromEmpty(f, rows);
    RecursiveMap(f, rows, [])
  }

  function NumbersRowOf(numericFields: seq<string>, precision: int): Row -> Row {
    (r: Row) => StandardizeNumbersRow(numericFields, precision, r)
  }

  /** Standardising the numbers twice is standardising them once. */
  lemma StandardizeNumbersIdempotent(numericFields: seq<string>, precision: int, r: Row)
    ensures StandardizeNumbersRow(numericFields, precision, StandardizeNumbersRow(numericFields, precision, r))
         == StandardizeNumbersRow(numericFields, precision, r)
  {
    var s := StandardizeNumbersRow(numericFields, precision, r);
    var t := StandardizeNumbersRow(numericFields, precision, s);
    forall k ensures Get(t, k) == Get(s, k) {
      if Has(r, k) && k in numericFields {
        RoundValueIdempotent(Get(r, k).value, precision);
      }
    }
    Extensionality(t, s);
  }

  // ---- Derived column ----

  /** `round((cur - prev) / prev, 4) if prev != 0 else 0.0`: the relative
      change to four places, and zero when there is no previous value to
      divide by. */
  function Growth(cur: real, prev: real): (g: real)
    ensures prev == 0.0 ==> g == 0.0
  {
    if prev != 0.0 then Round((cur - prev) / prev, 4) else 0.0
  }

  lemma GrowthChange(cur: real, prev: real)
    requires prev != 0.0
    ensures Growth(cur, prev) == Round((cur - prev) / prev, 4)
  {
  }

  /** With a previous value, the growth is a whole number of ten-thousandths
      within half a ten-thousandth of the relative change. */
  lemma GrowthRounded(cur: real, prev: real)
    requires prev != 0.0
    ensures (Growth(cur, prev) * Scale(4)).Floor as real == Growth(cur, prev) * Scale(4)
    ensures -0.5 <= Growth(cur, prev) * Scale(4) - (cur - prev) / prev * Scale(4) <= 0.5
  {
    RoundBounds((cur - prev) / prev, 4);
  }

  /** `compute_row(r)` of `compute_sales_growth`: the row with `newColumn`
      set to the growth from the previous to the current value, appended
      when the row lacks it; no other field changes. */
  function GrowthRow(r: Row, current: string, previous: string, newColumn: string): (s: Row)
    ensures Get(s, newColumn) == Some(Num(Growth(FieldOrZero(r, current), FieldOrZero(r, previous))))
    ensures forall k :: k != newColumn ==> Get(s, k) == Get(r, k)
    ensures Keys(s) == if Has(r, newColumn) then Keys(r) else Keys(r) + [newColumn]
  {
    Set(r, newColumn, Num(Growth(FieldOrZero(r, current), FieldOrZero(r, previous))))
  }

  /** `compute_sales_growth(rows, current_column, previous_column, new_column)` */
  function ComputeSalesGrowth(rows: seq<Row>, current: string, previous: string, newColumn: string): (out: seq<Row>)
    ensures |out| == |rows|
    ensures forall i :: 0 <= i < |rows| ==> out[i] == GrowthRow(rows[i], current, previous, newColumn)
  {
    var f := GrowthRowOf(current, previous, newColumn);
    MapFromEmpty(f, rows);
    RecursiveMap(f, rows, [])
  }

  function GrowthRowOf(current: string, previous: string, newColumn: string): Row -> Row {
    (r: Row) => GrowthRow(r, current, previous, newColumn)
  }

  /** A previous value that is absent, `None` or no number makes the growth
      zero instead of a division by zero. */
  lemma GrowthWithoutPrevious(r: Row, current: string, previous: string, newColumn: string)
    requires !Has(r, previous) || ParseNum(Get(r, previous).value).None?
    ensures Get(GrowthRow(r, current, previous, newColumn), newColumn) == Some(Num(0.0))
  {
  }

  // ---- Aggregation ----

  /** `head.get(key_field, "UNKNOWN")`: the group of a row. */
  function KeyOf(r: Row, keyField: string): Value {
    Lookup(r, keyField, Str("UNKNOWN"))
  }

  /** `(key, safe_float(head.get(sum_field, 0)))`: what one row contributes
      to the grouped sums. */
  function Entry(r: Row, keyField: string, sumField: string): (Value, real) {
    (KeyOf(r, keyField), FieldOrZero(r, sumField))
  }

  /** The contributions of the rows, in row order. */
  function Entries(rows: seq<Row>, keyField: string, sumField: string): seq<(Value, real)> {
    if |rows| == 0 then [] else [Entry(rows[0], keyField, sumField)] + Entries(rows[1..], keyField, sumField)
  }

  /** Entry `i` is the contribution of row `i`. */
  lemma {:induction false} EntriesAt(rows: seq<Row>, keyField: string, sumField: string)
    ensures |Entries(rows, keyField, sumField)| == |rows|
    ensures forall i :: 0 <= i < |rows| ==> Entries(rows, keyField, sumField)[i] == Entry(rows[i], keyField, sumField)
  {
    if |rows| > 0 {
      var es, rest := Entries(rows, keyField, sumField), Entries(rows[1..], keyField, sumField);
      EntriesAt(rows[1..], keyField, sumField);
      assert es == [Entry(rows[0], keyField, sumField)] + rest;
      forall i | 1 <= i < |rows|
        ensures es[i] == Entry(rows[i], keyField, sumField)
      {
        assert es[i] == rest[i - 1];
        assert rows[i] == rows[1..][i - 1];
      }
    }
  }

  /** The contributions of a prefix extended by one row. */
  lemma {:induction false} EntriesSnoc(rows: seq<Row>, r: Row, keyField: string, sumField: string)
    ensures Entries(rows + [r], keyField, sumField) == Entries(rows, keyField, sumField) + [Entry(r, keyField, sumField)]
  {
    if |rows| == 0 {
      assert rows + [r] == [r];
    } else {
      assert (rows + [r])[1..] == rows[1..] + [r];
      EntriesSnoc(rows[1..], r, keyField, sumField);
      Lists.AppendAssoc([Entry(rows[0], keyField, sumField)], Entries(rows[1..], keyField, sumField), [Entry(r, keyField, sumField)]);
    }
  }

  /** `aggregate_recursive(lst, accumulator)`: one `AddTo` step per row, from
      the first to the last. */
  function AggregateRecursive(lst: seq<Row>, acc: seq<(Value, real)>, keyField: string, sumField: string): seq<(Value, real)> {
    if |lst| == 0 then acc
    else
      var (k, v) := Entry(lst[0], keyField, sumField);
      AggregateRecursive(lst[1..], AddTo(acc, k, v), keyField, sumField)
  }

  /** The accumulator invariant: started from the grouped sums of some
      entries, the recursion ends with the grouped sums of those entries
      followed by the rows' entries. */
  lemma {:induction false} AggregateRecursiveGrouped(lst: seq<Row>, ps: seq<(Value, real)>, keyField: string, sumField: string)
    ensures AggregateRecursive(lst, Grouped(ps), keyField, sumField) == Grouped(ps + Entries(lst, keyField, sumField))
  {
    if |lst| > 0 {
      var e := Entry(lst[0], keyField, sumField);
      var rest := Entries(lst[1..], keyField, sumField);
      assert AggregateRecursive(lst, Grouped(ps), keyField, sumField)
          == AggregateRecursive(lst[1..], Grouped(ps + [e]), keyField, sumField) by {
        AddToGrouped(ps, e.0, e.1);
      }
      AggregateRecursiveGrouped(lst[1..], ps + [e], keyField, sumField);
      Lists.AppendAssoc(ps, [e], rest);
    } else {
      Lists.AppendEmpty(ps);
    }
  }

  /** The grouped sums `aggregate_recursive(rows, {})` computes. */
  lemma AggregateFromEmpty(rows: seq<Row>, keyField: string, sumField: string)
    ensures AggregateRecursive(rows, [], keyField, sumField) == Grouped(Entries(rows, keyField, sumField))
  {
    GroupedEmpty<Value>();
    AggregateRecursiveGrouped(rows, [], keyField, sumField);
    Lists.AppendEmpty(Entries(rows, keyField, sumField));
  }

  /** Before rounding, the group totals add up to the total over all rows. */
  lemma AggregateTotal(rows: seq<Row>, keyField: string, sumField: string)
    ensures Total(AggregateRecursive(rows, [], keyField, sumField)) == Total(Entries(rows, keyField, sumField))
  {
    AggregateFromEmpty(rows, keyField, sumField);
    GroupedTotal(Entries(rows, keyField, sumField));
  }

  /** `format_output((k, v))`: `{"key": k, sum_field: round(v, 2)}`. */
  function FormatOutput(sumField: string): ((Value, real)) -> Row {
    (item: (Value, real)) => Set([("key", item.0)], sumField, Num(Round(item.1, 2)))
  }

  /** The distinct keys of the rows, in order of first appearance. */
  function GroupKeys(rows: seq<Row>, keyField: string, sumField: string): seq<Value> {
    Lists.Dedup(Keys(Entries(rows, keyField, sumField)))
  }

  /** The groups are the keys the rows have, `"UNKNOWN"` for a row without
      the key field, each once, in order of first appearance. */
  lemma GroupKeysOrder(rows: seq<Row>, keyField: string, sumField: string)
    ensures Lists.NoDup(GroupKeys(rows, keyField, sumField))
    ensures forall x :: x in GroupKeys(rows, keyField, sumField) <==> exists i :: 0 <= i < |rows| && KeyOf(rows[i], keyField) == x
    ensures forall i, j :: 0 <= i < j < |GroupKeys(rows, keyField, sumField)| ==>
      Lists.FirstIndex(Keys(Entries(rows, keyField, sumField)), GroupKeys(rows, keyField, sumField)[i])
      < Lists.FirstIndex(Keys(Entries(rows, keyField, sumField)), GroupKeys(rows, keyField, sumField)[j])
  {
    var ks := Keys(Entries(rows, keyField, sumField));
    EntriesAt(rows, keyField, sumField);
    Lists.DedupFirstAppearance(ks);
    forall x ensures x in ks <==> exists i :: 0 <= i < |rows| && KeyOf(rows[i], keyField) == x {
      if x in ks {
        var i :| 0 <= i < |ks| && ks[i] == x;
        assert KeyOf(rows[i], keyField) == x;
      }
      if exists i :: 0 <= i < |rows| && KeyOf(rows[i], keyField) == x {
        var i :| 0 <= i < |rows| && KeyOf(rows[i], keyField) == x;
        assert ks[i] == x;
      }
    }
  }

  /** `aggregate_sum_by_key(rows, key_field, sum_field)`: one output row per
      distinct key, in order of first appearance, holding the key and the
      sum of `sum_field` over the rows with that key, rounded to two
      places. */
  function AggregateSumByKey(rows: seq<Row>, keyField: string, sumField: string): (out: seq<Row>)
    ensures |out| == |GroupKeys(rows, keyField, sumField)|
    ensures forall i :: 0 <= i < |out| ==>
      Get(out[i], sumField) == Some(Num(Round(GroupTotal(Entries(rows, keyField, sumField), GroupKeys(rows, keyField, sumField)[i]), 2)))
    ensures sumField != "key" ==> forall i :: 0 <= i < |out| ==>
      Keys(out[i]) == ["key", sumField] && Get(out[i], "key") == Some(GroupKeys(rows, keyField, sumField)[i])
  {
    var sums := AggregateRecursive(rows, [], keyField, sumField);
    AggregateFromEmpty(rows, keyField, sumField);
    GroupedAt(Entries(rows, keyField, sumField));
    var out := RecursiveMap(FormatOutput(sumField), sums, []);
    MapFromEmpty(FormatOutput(sumField), sums);
    FormatGroups(sumField, sums, out);
    out
  }

  /** The output rows of a list of groups, one per group. */
  lemma FormatGroups(sumField: string, groups: seq<(Value, real)>, out: seq<Row>)
    requires out == Lists.Map(FormatOutput(sumField), groups)
    ensures forall i :: 0 <= i < |out| ==> Get(out[i], sumField) == Some(Num(Round(groups[i].1, 2)))
    ensures sumField != "key" ==> forall i :: 0 <= i < |out| ==>
      Keys(out[i]) == ["key", sumField] && Get(out[i], "key") == Some(groups[i].0)
  {
    forall i | 0 <= i < |out|
      ensures Get(out[i], sumField) == Some(Num(Round(groups[i].1, 2)))
      ensures sumField != "key" ==> Keys(out[i]) == ["key", sumField] && Get(out[i], "key") == Some(groups[i].0)
    {
      FormatOutputRow(sumField, groups[i]);
    }
  }

  /** The output is the formatted grouped sums of the rows' entries. */
  lemma AggregateSumByKeyGrouped(rows: seq<Row>, keyField: string, sumField: string)
    ensures AggregateSumByKey(rows, keyField, sumField) == Lists.Map(FormatOutput(sumField), Grouped(Entries(rows, keyField, sumField)))
  {
    AggregateFromEmpty(rows, keyField, sumField);
    MapFromEmpty(FormatOutput(sumField), Grouped(Entries(rows, keyField, sumField)));
  }

  /** The output row of one group. */
  lemma FormatOutputRow(sumField: string, item: (Value, real))
    ensures Get(FormatOutput(sumField)(item), sumField) == Some(Num(Round(item.1, 2)))
    ensures sumField != "key" ==>
      Keys(FormatOutput(sumField)(item)) == ["key", sumField] && Get(FormatOutput(sumField)(item), "key") == Some(item.0)
  {
  }

  // ---- Analysis ----

  /** `is_valid(r)`: `r.get(column) not in [None, ""]`. */
  function HasValue(column: string): Row -> bool {
    (r: Row) => !IsBlank(Lookup(r, column, Null))
  }

  /** `get_val(r)`: `safe_float(r.get(column))`. */
  function ColumnNumber(column: string): Row -> real {
    (r: Row) => SafeFloat(Lookup(r, column, Null), 0.0)
  }

  /** `numeric_column_list(rows, column)`: one number per row whose field is
      neither absent, `None` nor `""`, in row order; the number is
      `safe_float` of the field, so text that is no number counts as 0.0. */
  function NumericColumnList(rows: seq<Row>, column: string): (vals: seq<real>)
    ensures vals == Lists.Map(ColumnNumber(column), Lists.Filter(HasValue(column), rows))
    ensures |vals| == Lists.Count(HasValue(column), rows)
  {
    var valid := RecursiveFilter(HasValue(column), rows, []);
    Lists.AppendEmpty(Lists.Filter(HasValue(column), rows));
    MapFromEmpty(ColumnNumber(column), valid);
    RecursiveMap(ColumnNumber(column), valid, [])
  }

  /** `stats_summary(numeric_column_list(rows, column))` */
  function SummaryOf(rows: seq<Row>): string -> Statistics.Summary {
    (column: string) => FunctionalUtils.StatsSummary(Lists.Map(Wrap, NumericColumnList(rows, column)))
  }

  /** `analyze_statistics(rows, numeric_columns)`: `analyze_cols_recursive`
      stores the summary of each column in turn, so there is one summary per
      distinct requested column, in order of first mention, each the summary
      of that column's numbers. */
  function AnalyzeStatistics(rows: seq<Row>, cols: seq<string>): (t: seq<(string, Statistics.Summary)>)
    ensures Keys(t) == Lists.Dedup(cols)
    ensures forall c :: c in cols ==> Get(t, c) == Some(Statistics.Summarize(NumericColumnList(rows, c)))
    ensures forall c :: c !in cols ==> !Has(t, c)
  {
    TabulateEmpty(SummaryOf(rows));
    SetEachTabulate(cols, SummaryOf(rows), []);
    Lists.AppendEmpty(cols);
    forall c ensures Get(Tabulate(cols, SummaryOf(rows)), c) == if c in cols then Some(Statistics.Summarize(NumericColumnList(rows, c))) else None {
      TabulateGet(cols, SummaryOf(rows), c);
      PresentWrap(NumericColumnList(rows, c));
    }
    SetEach(cols, SummaryOf(rows), [])
  }
}
