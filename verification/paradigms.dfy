/** Where the recursive and the loop variants of the pipeline agree, and
    where they part.  Each lemma states the exact condition under which the
    two variants of a stage give the same result. */
module Paradigms {
  import opened Dicts
  import opened Values
  import opened Numbers
  import opened Text
  import Lists
  import FunctionalUtils
  import ImperativeUtils
  import FunctionalPipeline
  import ImperativePipeline

  /** The two `parse_date`s agree on text and `None` exactly when the value
      is non-empty text: the recursive one turns `None` and `""` into
      `"UNKNOWN"`, the loop one returns `None` as it is and passes `""`
      through the formats, which leave it unchanged. */
  lemma ParseDateAgreement(v: Value)
    requires !v.Num?
    ensures FunctionalUtils.ParseDate(v) == ImperativeUtils.ParseDate(v) <==> v.Str? && v.s != ""
  {
    if v == Str("") {
      assert |"UNKNOWN"| == 7;
    }
  }

  /** The recursive `fill_row` repairs only the fields a row has, the
      defaults loop also appends each defaulted field the row lacks: the two
      agree exactly when every default names a field of the row. */
  lemma FillAgreement(fill: Row, r: Row)
    ensures FunctionalPipeline.FillRow(fill, r) == ImperativePipeline.FillDefaults(r, fill)
      <==> forall k :: Has(fill, k) ==> Has(r, k)
  {
    var a, b := FunctionalPipeline.FillRow(fill, r), ImperativePipeline.FillDefaults(r, fill);
    if forall k :: Has(fill, k) ==> Has(r, k) {
      ImperativePipeline.FillDefaultsKeys(r, fill);
      forall k ensures Get(a, k) == Get(b, k) {
        ImperativePipeline.FillDefaultsGet(r, fill, k);
      }
      Extensionality(a, b);
    } else {
      var k :| Has(fill, k) && !Has(r, k);
      ImperativePipeline.FillDefaultsGet(r, fill, k);
      assert !Has(a, k) && Has(b, k);
    }
  }

  /** With the `"fill"` strategy no row is dropped, and when every default
      names a field of every row the loop variant's `handle_missing` returns
      the recursive variant's rows. */
  lemma HandleMissingAgreement(rows: seq<Row>, fill: Row, required: seq<string>)
    requires forall i, k :: 0 <= i < |rows| && Has(fill, k) ==> Has(rows[i], k)
    ensures Lists.Map(ImperativePipeline.Repair("fill", fill), Lists.Filter(ImperativePipeline.Keeps("fill", required), rows))
      == FunctionalPipeline.HandleMissing(rows, fill)
  {
    Lists.FilterAll(ImperativePipeline.Keeps("fill", required), rows);
    var a, b := Lists.Map(ImperativePipeline.Repair("fill", fill), rows), FunctionalPipeline.HandleMissing(rows, fill);
    forall i | 0 <= i < |rows| ensures a[i] == b[i] {
      FillAgreement(fill, rows[i]);
    }
  }

  /** Standardising the dates of a row whose date fields hold text or
      `None`: the two variants agree exactly when none of those fields is
      `None` or `""`. */
  lemma DatesAgreement(dateFields: seq<string>, r: Row)
    requires FunctionalPipeline.DatesAreText(r, dateFields)
    ensures FunctionalPipeline.StandardizeDatesRow(dateFields, r) == ImperativePipeline.Updated(r, dateFields, ImperativeUtils.ParseDate)
      <==> forall k :: k in dateFields && Has(r, k) ==> !IsBlank(Get(r, k).value)
  {
    if forall k :: k in dateFields && Has(r, k) ==> !IsBlank(Get(r, k).value) {
      DatesAgree(dateFields, r);
    } else {
      var k :| k in dateFields && Has(r, k) && IsBlank(Get(r, k).value);
      DatesDiffer(dateFields, r, k);
    }
  }

  lemma DatesDiffer(dateFields: seq<string>, r: Row, k: string)
    requires FunctionalPipeline.DatesAreText(r, dateFields)
    requires k in dateFields && Has(r, k) && IsBlank(Get(r, k).value)
    ensures FunctionalPipeline.StandardizeDatesRow(dateFields, r) != ImperativePipeline.Updated(r, dateFields, ImperativeUtils.ParseDate)
  {
    var v := Get(r, k).value;
    ParseDateAgreement(v);
    assert Get(FunctionalPipeline.StandardizeDatesRow(dateFields, r), k) == Some(FunctionalUtils.ParseDate(v));
    assert Get(ImperativePipeline.Updated(r, dateFields, ImperativeUtils.ParseDate), k) == Some(ImperativeUtils.ParseDate(v));
  }

  lemma DatesAgree(dateFields: seq<string>, r: Row)
    requires FunctionalPipeline.DatesAreText(r, dateFields)
    requires forall k :: k in dateFields && Has(r, k) ==> !IsBlank(Get(r, k).value)
    ensures FunctionalPipeline.StandardizeDatesRow(dateFields, r) == ImperativePipeline.Updated(r, dateFields, ImperativeUtils.ParseDate)
  {
    var a, b := FunctionalPipeline.StandardizeDatesRow(dateFields, r), ImperativePipeline.Updated(r, dateFields, ImperativeUtils.ParseDate);
    forall k ensures Get(a, k) == Get(b, k) {
      if k in dateFields && Has(r, k) {
        ParseDateAgreement(Get(r, k).value);
      }
    }
    Extensionality(a, b);
  }

  /** The recursive `numeric_column_list` keeps every non-blank field and
      reads text that is no number as 0.0; the loop keeps only the fields
      `float()` reads.  The lists agree exactly when every non-blank field
      is a number. */
  lemma NumericColumnAgreement(rows: seq<Row>, column: string)
    ensures FunctionalPipeline.NumericColumnList(rows, column) == ImperativePipeline.ParsedColumn(rows, column)
      <==> forall i :: 0 <= i < |rows| ==> FunctionalPipeline.HasValue(column)(rows[i]) ==> ImperativePipeline.Parses(column)(rows[i])
  {
    var p, q := ImperativePipeline.Parses(column), FunctionalPipeline.HasValue(column);
    Lists.CountMonotone(p, q, rows);
    if forall i :: 0 <= i < |rows| ==> q(rows[i]) ==> p(rows[i]) {
      Lists.FilterCongruence(p, q, rows);
    }
  }

  /** One row whose field holds `"abc"`: the recursive variant lists 0.0
      for it, the loop variant nothing. */
  lemma NumericColumnText(r: Row)
    requires r == [("amount", Str("abc"))]
    ensures FunctionalPipeline.NumericColumnList([r], "amount") == [0.0]
    ensures ImperativePipeline.ParsedColumn([r], "amount") == []
  {
    assert Lookup(r, "amount", Null) == Str("abc");
    SafeFloatText();
    var p, q := ImperativePipeline.Parses("amount"), FunctionalPipeline.HasValue("amount");
    assert q(r) && !p(r);
    assert Lists.Filter(q, [r]) == [r];
    assert Lists.Filter(p, [r]) == [];
    assert FunctionalPipeline.ColumnNumber("amount")(r) == 0.0;
  }
}
