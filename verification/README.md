# Sales-data pipeline, recursive and loop variants

A Dafny model of the data-transformation core of a small sales-data pipeline.
The pipeline exists twice: a recursive variant, which uses accumulators and
head/tail recursion (`PureFunctionalParadigm`), and a loop variant, which
uses `for` loops and in-place updates (`ImperativeParadigm`). Both variants
take a list of records (Python dicts) through the same stages:

- value coercion: `safe_float` and `parse_date`;
- repair of missing values: `handle_missing`;
- field normalisation: `standardize_dates` and `standardize_numbers`;
- filtering: `filter_rows`, built on the generic `recursive_map` and
  `recursive_filter`;
- a derived growth column: `compute_sales_growth`;
- grouped sums: `aggregate_sum_by_key`;
- descriptive statistics: `numeric_column_list`, `stats_summary` and
  `analyze_statistics`;
- the column extractors that feed the charts.

The representation:

- A record is an insertion-ordered association list with distinct keys
  (`Values.Row`). Dictionary lookup and assignment live in `Dicts`.
  Assigning to a key that is present keeps its position, and assigning to a
  new key appends it, as in Python.
- A field value is `Str`, `Num` (an exact real) or `Null` (Python's `None`).
- `float()` is a decimal grammar applied after stripping whitespace
  (`Numbers`).
- `round(x, p)` rounds half to even on exact reals.
- `datetime.strptime` is, for each of the four formats, a fixed-width digit
  grammar plus a Gregorian validity check. `strftime("%Y-%m-%d")` renders
  the ISO form (`Dates`).
- Mean, median and population variance have their textbook definitions
  (`Statistics`).

Each recursive stage is a Dafny function in `FunctionalPipeline` or
`FunctionalUtils`. Each loop stage is a method with loop invariants in
`ImperativePipeline` or `ImperativeUtils`. Its contract ties it either to
the recursive variant or to a reference definition: `Lists.Filter`,
`Lists.Dedup`, `Grouping.Grouped` or `Grouping.Tabulate`.

`Paradigms` states where the two variants agree and where they part. Each
lemma gives the exact condition, in both directions:

- `parse_date` on `None` and `""`;
- defaults for fields a row lacks in `handle_missing`;
- text that is no number in `numeric_column_list`.

## Model

| member | source | states |
|---|---|---|
| Numbers.SafeFloat | PureFunctionalParadigm/utils.py:40-45 | never fails: the number `float()` reads, or the default when `float()` raises |
| Numbers.SafeFloatText | ImperativeParadigm/utils.py:26-30 | `float("abc")` raises, so `safe_float("abc")` is 0.0 |
| Numbers.SafeFloatDecimal | ImperativeParadigm/utils.py:26-30 | `safe_float("12.5")` is 12.5 |
| Numbers.SafeFloatPadded | PureFunctionalParadigm/utils.py:40-45 | whitespace around a signed literal is ignored: `safe_float(" -7 ")` is -7.0 |
| Numbers.ParseNum | PureFunctionalParadigm/utils.py:40-45 | `float()` accepts a number as it is and rejects `None` and `""` |
| Numbers.FieldOrZero | PureFunctionalParadigm/pipeline.py:117-118 | `safe_float(r.get(column, 0))` is 0.0 for an absent field, and `safe_float` of the value otherwise |
| Numbers.RoundBounds | PureFunctionalParadigm/pipeline.py:100 | `round(x, p)` is a whole multiple of `10 ** -p` within half a unit of `x` |
| Numbers.RoundIdempotent | PureFunctionalParadigm/pipeline.py:100 | rounding a rounded number changes nothing |
| Numbers.RoundValueIdempotent | ImperativeParadigm/pipeline.py:65-66 | `round(safe_float(v), p)` applied twice equals applying it once |
| Numbers.RoundHalfEven | PureFunctionalParadigm/pipeline.py:100 | the nearest integer, within one half, and even on a tie |
| Text.Strip | PureFunctionalParadigm/utils.py:32 | `str.strip()`: the text between the leading and the trailing whitespace, and nothing but whitespace removed |
| Dates.DaysInMonth | PureFunctionalParadigm/utils.py:21 | the calendar `strptime` checks against: 28 to 31 days |
| Dates.Pad | PureFunctionalParadigm/utils.py:33 | `%Y`, `%m` and `%d` render a number as exactly `width` digits with that value |
| Dates.PadDigits | PureFunctionalParadigm/utils.py:32-33 | rendering the value of a digit string at its own width gives the string back |
| Dates.Render | PureFunctionalParadigm/utils.py:33 | a formatted date is ten characters long |
| Dates.Parse | PureFunctionalParadigm/utils.py:32 | `strptime` with one format accepts only valid dates, and only text that renders back to itself |
| Dates.ParseRender | PureFunctionalParadigm/utils.py:32-33 | a valid date rendered in a format parses back to that date |
| Dates.FirstMatch | PureFunctionalParadigm/utils.py:24-35 | trying formats in order fails exactly when every format fails, and succeeds with a valid date otherwise |
| Dates.FirstMatchTail | PureFunctionalParadigm/utils.py:34-35 | when the head format fails, the result is that of the remaining formats |
| Dates.FirstMatchAt | ImperativeParadigm/utils.py:11-16 | the first format that succeeds decides the result |
| Dates.IsoRecognised | PureFunctionalParadigm/utils.py:21 | an ISO date has no surrounding whitespace, and the first format reads it back |
| Dates.DayFirstWins | PureFunctionalParadigm/utils.py:21 | text that `%d/%m/%Y` reads is never read as `%m/%d/%Y` |
| Dates.DayFirstExample | PureFunctionalParadigm/utils.py:21 | `"01/03/2024"` is the first of March |
| Dates.MonthFirstFallback | PureFunctionalParadigm/utils.py:21 | `"03/25/2024"` has no month 25, so the third format reads it as March 25 |
| Dates.ThirdFormatWins | ImperativeParadigm/utils.py:10-16 | when the first two formats fail and `%m/%d/%Y` succeeds, that format decides |
| Dates.InvalidDayRejected | ImperativeParadigm/utils.py:12-15 | `"2024-02-30"` is no date in any format |
| Dates.Reformat | ImperativeParadigm/utils.py:10-17 | with no format matching, the original, unstripped text is returned; otherwise the ten-character ISO form of the date the first matching format reads from the stripped text |
| Dates.ReformatIdempotent | ImperativeParadigm/utils.py:10-17 | reformatting reformatted text changes nothing |
| Dates.ReformatUnknown | PureFunctionalParadigm/utils.py:18 | the `"UNKNOWN"` marker passes through the formats unchanged |
| Dates.ReformatDayFirst | ImperativeParadigm/utils.py:10-16 | `"01/03/2024"` becomes the ISO date of the first of March |
| FunctionalUtils.TryParseRecursive | PureFunctionalParadigm/utils.py:24-35 | the ISO form of the first format that reads the stripped text, or the text itself when none does |
| FunctionalUtils.ParseDate | PureFunctionalParadigm/utils.py:12-37 | `None` and `""` become `"UNKNOWN"`; other text becomes the first match's ISO form, or stays as it is |
| FunctionalUtils.ParseDateIdempotent | PureFunctionalParadigm/utils.py:12-37 | applying `parse_date` to its own result changes nothing |
| FunctionalUtils.ParseDateCanonical | PureFunctionalParadigm/utils.py:21-33 | a canonical `YYYY-MM-DD` date maps to itself |
| FunctionalUtils.ParseDateDayFirst | PureFunctionalParadigm/utils.py:21-33 | any text that `%d/%m/%Y` reads once stripped becomes the ISO form of that day-first date, whatever `%m/%d/%Y` would make of it |
| FunctionalUtils.ParseDateDayFirstExample | PureFunctionalParadigm/utils.py:21-33 | example: `parse_date("01/03/2024")` is the first of March |
| FunctionalUtils.RecursiveClean | PureFunctionalParadigm/utils.py:55-66 | the accumulator followed by the values that are not `None`, in order |
| FunctionalUtils.StatsSummary | PureFunctionalParadigm/utils.py:48-83 | the summary of the values that are not `None` |
| ImperativeUtils.ParseDateLoop | ImperativeParadigm/utils.py:6-17 | `None` is returned at once; text goes through the formats; the loop computes the reference `ImperativeUtils.ParseDate` |
| ImperativeUtils.TryFormats | ImperativeParadigm/utils.py:11-16 | the loop with `try`/`continue` finds the first format that reads the stripped text |
| ImperativeUtils.ParseDateIdempotent | ImperativeParadigm/utils.py:6-17 | applying `parse_date` to its own result changes nothing |
| ImperativeUtils.StatsSummary | ImperativeParadigm/utils.py:32-45 | the summary of the values that are not `None`, the same as the recursive variant's |
| Statistics.Min | ImperativeParadigm/utils.py:43 | `min` is an element no greater than any other |
| Statistics.Max | ImperativeParadigm/utils.py:44 | `max` is an element no smaller than any other |
| Statistics.Sort | PureFunctionalParadigm/utils.py:79 | a sorted permutation of the values |
| Statistics.SortedUnique | PureFunctionalParadigm/utils.py:79 | two sorted permutations of the same values are equal |
| Statistics.Median | PureFunctionalParadigm/utils.py:79 | the median lies between the minimum and the maximum |
| Statistics.MedianOfSorted | PureFunctionalParadigm/utils.py:79 | for every non-empty input and any sorted arrangement of it: the middle element for an odd count, the mean of the two middle elements for an even count |
| Statistics.MedianOfFour | PureFunctionalParadigm/utils.py:79 | example: of four ordered values the median is the mean of the middle two |
| Statistics.MedianPermutation | ImperativeParadigm/utils.py:40 | the median does not depend on the order of the values |
| Statistics.PVariance | PureFunctionalParadigm/utils.py:80 | the population variance is never negative |
| Statistics.SingletonVariance | ImperativeParadigm/utils.py:41 | one value has variance 0.0 |
| Statistics.MeanWithin | PureFunctionalParadigm/utils.py:78 | the mean lies within any bounds of the values |
| Statistics.Summarize | PureFunctionalParadigm/utils.py:71-83 | `{count: 0}` exactly when nothing remains; otherwise the count, with min ≤ mean ≤ max, min ≤ median ≤ max, min and max among the values, and a non-negative variance |
| Statistics.SummaryVariance | PureFunctionalParadigm/utils.py:80 | the variance field is the population variance |
| Statistics.SummarizePermutation | ImperativeParadigm/utils.py:37-45 | the summary does not depend on the order of the values |
| Statistics.SummaryExample | PureFunctionalParadigm/utils.py:76-83 | the summary of 1, 2, 3, 4: count 4, mean 2.5, median 2.5, variance 1.25, min 1, max 4 |
| FunctionalPipeline.RecursiveMap | PureFunctionalParadigm/pipeline.py:36-52 | the accumulator followed by `func` of each element, in order |
| FunctionalPipeline.MapFromEmpty | PureFunctionalParadigm/pipeline.py:36-52 | started empty, the recursion is the list comprehension `[f(x) for x in lst]` |
| FunctionalPipeline.RecursiveFilter | PureFunctionalParadigm/pipeline.py:55-71 | the accumulator followed by the order-preserving subsequence of elements that meet the condition |
| FunctionalPipeline.FilterRows | PureFunctionalParadigm/pipeline.py:108-111 | exactly the rows meeting the condition, in order |
| FunctionalPipeline.FilterRowsAll | PureFunctionalParadigm/pipeline.py:108-111 | a condition every row meets returns the input |
| FunctionalPipeline.FillRow | PureFunctionalParadigm/pipeline.py:81-83 | same keys in the same order; a blank field with a default gets it; every other value stays; no field is added |
| FunctionalPipeline.HandleMissing | PureFunctionalParadigm/pipeline.py:76-86 | one repaired row per row, in order |
| FunctionalPipeline.FillRowIdempotent | PureFunctionalParadigm/pipeline.py:81-83 | with non-blank defaults, repairing a repaired row changes nothing |
| FunctionalPipeline.StandardizeDatesRow | PureFunctionalParadigm/pipeline.py:91-92 | same keys; each listed field the row has becomes `parse_date` of its value; unlisted fields stay |
| FunctionalPipeline.StandardizeDates | PureFunctionalParadigm/pipeline.py:89-94 | one standardised row per row, in order |
| FunctionalPipeline.StandardizeDatesIdempotent | PureFunctionalParadigm/pipeline.py:89-94 | standardising standardised dates changes nothing |
| FunctionalPipeline.StandardizeNumbersRow | PureFunctionalParadigm/pipeline.py:99-101 | same keys; each listed field becomes `round(safe_float(v), precision)`; unlisted fields stay |
| FunctionalPipeline.StandardizeNumbers | PureFunctionalParadigm/pipeline.py:97-103 | one standardised row per row, in order |
| FunctionalPipeline.StandardizeNumbersIdempotent | PureFunctionalParadigm/pipeline.py:97-103 | standardising twice equals standardising once |
| FunctionalPipeline.Growth | PureFunctionalParadigm/pipeline.py:119 | a zero previous value gives growth 0.0 |
| FunctionalPipeline.GrowthRounded | PureFunctionalParadigm/pipeline.py:119 | otherwise the growth is a whole number of ten-thousandths within half a ten-thousandth of `(cur - prev) / prev` |
| FunctionalPipeline.GrowthRow | PureFunctionalParadigm/pipeline.py:116-120 | the new column holds the growth of the row's two fields; it is appended when new; no other field changes |
| FunctionalPipeline.GrowthWithoutPrevious | PureFunctionalParadigm/pipeline.py:117-119 | an absent or unreadable previous value gives growth 0.0 |
| FunctionalPipeline.ComputeSalesGrowth | PureFunctionalParadigm/pipeline.py:114-122 | one row with the growth column per row, in order |
| FunctionalPipeline.EntriesAt | PureFunctionalParadigm/pipeline.py:142-143 | row `i` contributes its key, `"UNKNOWN"` when absent, and `safe_float` of its sum field |
| FunctionalPipeline.AggregateRecursiveGrouped | PureFunctionalParadigm/pipeline.py:135-152 | accumulator invariant: from the grouped sums of some entries, the recursion reaches the grouped sums of those entries and the rows' entries |
| FunctionalPipeline.AggregateFromEmpty | PureFunctionalParadigm/pipeline.py:155 | started from `{}`, the recursion yields one total per distinct key in order of first appearance |
| FunctionalPipeline.AggregateTotal | PureFunctionalParadigm/pipeline.py:135-155 | before rounding, the group totals add up to the total over all rows |
| FunctionalPipeline.GroupKeysOrder | PureFunctionalParadigm/pipeline.py:142-150 | the output keys are distinct, are exactly the rows' keys, and come in order of first appearance |
| FunctionalPipeline.AggregateSumByKey | PureFunctionalParadigm/pipeline.py:127-164 | one row per distinct key, in order of first appearance, holding `"key"` and the key's total rounded to two places |
| FunctionalPipeline.FormatOutputRow | PureFunctionalParadigm/pipeline.py:159-161 | a group becomes `{"key": k, sum_field: round(v, 2)}` |
| FunctionalPipeline.NumericColumnList | PureFunctionalParadigm/pipeline.py:169-181 | `safe_float` of each field that is neither absent, `None` nor `""`, in row order |
| FunctionalPipeline.AnalyzeStatistics | PureFunctionalParadigm/pipeline.py:184-200 | one summary per distinct requested column, in order of first mention, and no other key |
| ImperativePipeline.FindMissing | ImperativeParadigm/pipeline.py:39-43 | the loop with `break` reports whether some required field is absent, `""` or `None` |
| ImperativePipeline.FillDefaults | ImperativeParadigm/pipeline.py:47-50 | the fields the row has keep their places |
| ImperativePipeline.FillDefaultsGet | ImperativeParadigm/pipeline.py:47-50 | a field takes its default exactly when there is one and its value is absent, `""` or `None`; every other value stays |
| ImperativePipeline.FillDefaultsKeys | ImperativeParadigm/pipeline.py:47-50 | defaults for fields the row has add no field |
| ImperativePipeline.FillRow | ImperativeParadigm/pipeline.py:47-50 | the defaults loop computes the defaults definition |
| ImperativePipeline.HandleRow | ImperativeParadigm/pipeline.py:37-50 | whether the row survives, and the copy that is kept |
| ImperativePipeline.HandleMissing | ImperativeParadigm/pipeline.py:29-52 | the surviving rows in order, each repaired; an unknown strategy, or `"remove"` with no required field missing anywhere, returns the rows unchanged |
| ImperativePipeline.Unchanged | ImperativeParadigm/pipeline.py:35-52 | a strategy other than `"fill"` returns the rows unchanged, provided that for `"remove"` no row misses a required field |
| ImperativePipeline.Updated | ImperativeParadigm/pipeline.py:55-58 | same keys; each listed field the row has is replaced by the update of its value; other fields stay |
| ImperativePipeline.UpdateFields | ImperativeParadigm/pipeline.py:56-58 | the in-place loop over the listed fields computes the update, a field listed twice included |
| ImperativePipeline.StandardizeDates | ImperativeParadigm/pipeline.py:54-59 | each row with its listed date fields passed through `parse_date` |
| ImperativePipeline.StandardizeNumbers | ImperativeParadigm/pipeline.py:61-67 | the recursive variant's rows |
| ImperativePipeline.NumbersAgree | ImperativeParadigm/pipeline.py:63-66 | rounding the listed fields in place gives the recursive variant's row |
| ImperativePipeline.FilterRows | ImperativeParadigm/pipeline.py:70-76 | exactly the rows meeting the condition, in order |
| ImperativePipeline.GrowthOf | ImperativeParadigm/pipeline.py:80-85 | the loop body gives the recursive variant's row |
| ImperativePipeline.ComputeSalesGrowth | ImperativeParadigm/pipeline.py:78-86 | the recursive variant's rows |
| ImperativePipeline.AggregateSumByKey | ImperativeParadigm/pipeline.py:89-96 | the accumulating loop and the output loop give the recursive variant's result |
| ImperativePipeline.ParsedColumn | ImperativeParadigm/pipeline.py:99-107 | one number per row whose field `float()` reads |
| ImperativePipeline.ReadNumber | ImperativeParadigm/pipeline.py:102-106 | `float(r.get(column))` succeeds exactly when the field is a number, and yields `safe_float` of it |
| ImperativePipeline.NumericColumnList | ImperativeParadigm/pipeline.py:99-107 | the loop with `try`/`except` keeps exactly the fields `float()` reads, in row order |
| ImperativePipeline.SummarizeColumn | ImperativeParadigm/pipeline.py:112-113 | `stats_summary` of the numbers the column yields |
| ImperativePipeline.AnalyzeStatistics | ImperativeParadigm/pipeline.py:109-114 | one summary per distinct requested column, in order of first mention, and no other key |
| FunctionalVisualizer.ExtractColumn | PureFunctionalParadigm/visualizer.py:8-13 | one value per row, in order: the field's value, or `None` when absent |
| FunctionalVisualizer.ExtractNumericColumn | PureFunctionalParadigm/visualizer.py:16-21 | one number per row, in order: `safe_float` of the field, 0.0 when absent |
| FunctionalVisualizer.ExtractTwoNumericColumns | PureFunctionalParadigm/visualizer.py:24-30 | one pair per row, in order, both numbers from that row |
| FunctionalVisualizer.UnzipTwoColumns | PureFunctionalParadigm/visualizer.py:24-30 | the pairs are the two single-column extractions zipped |
| ImperativeVisualizer.ExtractColumn | ImperativeParadigm/visualizer.py:10-15 | the recursive variant's list |
| ImperativeVisualizer.ExtractNumericColumn | ImperativeParadigm/visualizer.py:18-22 | the recursive variant's list |
| ImperativeVisualizer.ExtractTwoNumericColumns | ImperativeParadigm/visualizer.py:25-31 | two lists as long as the rows, the unzip of the recursive variant's pairs |
| Lists.Filter | PureFunctionalParadigm/pipeline.py:55-71 | an order-preserving subsequence of the elements that satisfy the predicate, as long as their number |
| Lists.FilterSnoc | ImperativeParadigm/pipeline.py:73-75 | a loop that appends the kept element extends the filtered prefix |
| Lists.Dedup | PureFunctionalParadigm/pipeline.py:150 | each distinct element once, and nothing else |
| Lists.DedupFirstAppearance | ImperativeParadigm/pipeline.py:94-96 | dictionary keys come in order of first appearance |
| Grouping.AddTo | ImperativeParadigm/pipeline.py:94 | `agg[k] += val` adds to key `k` and leaves the others alone |
| Grouping.AddToGrouped | ImperativeParadigm/pipeline.py:91-94 | loop invariant: one more step groups one more entry |
| Grouping.GroupedTotal | PureFunctionalParadigm/pipeline.py:146-150 | the group totals add up to the total over all entries |
| Grouping.SetTabulate | ImperativeParadigm/pipeline.py:111-113 | loop invariant: assigning the next column extends the table |
| Grouping.SetEachTabulate | PureFunctionalParadigm/pipeline.py:188-198 | accumulator invariant of `analyze_cols_recursive` |
| Paradigms.ParseDateAgreement | ImperativeParadigm/utils.py:8-17 | on text and `None` the two `parse_date`s agree exactly when the value is non-empty text |
| Paradigms.FillAgreement | PureFunctionalParadigm/pipeline.py:83 | the recursive `fill_row` and the defaults loop agree exactly when every default names a field of the row |
| Paradigms.HandleMissingAgreement | ImperativeParadigm/pipeline.py:47-51 | with `"fill"`, and every default naming a field of every row, the loop variant returns the recursive variant's rows |
| Paradigms.DatesAgreement | ImperativeParadigm/pipeline.py:54-59 | the two `standardize_dates` agree on a row exactly when none of its listed fields is `None` or `""` |
| Paradigms.NumericColumnAgreement | PureFunctionalParadigm/pipeline.py:169-181 | the two `numeric_column_list`s agree exactly when every non-blank field is a number |
| Paradigms.NumericColumnText | ImperativeParadigm/pipeline.py:102-106 | a field holding `"abc"` gives 0.0 in the recursive variant and nothing in the loop variant |

## Left out

- Loading and saving: `load_csv`, `load_json`, `write_csv`, `save_clean_data` and `save_analysis_summary` are file I/O. Both `main.py` files only compose the stages with constants, and the `plot_*` functions draw charts.
- `sys.setrecursionlimit` and stack depth: recursion is unbounded in the model.
- Binary floating point: numbers are exact reals. `round` is half to even on the exact value, not on the nearest binary float. NaN, infinity and the `statistics` module's internal fractions are not modelled.
- `float()` accepts no exponents, `inf`, `nan` or underscores here. Whitespace is the full `str.isspace` set, but digits are ASCII only: Python's `float()` also reads other Unicode decimal digits (`float("١٢")` is 12.0), and the model rejects them.
- `strptime` accepts only zero-padded two-digit day and month fields and four-digit years, all in ASCII digits; single-digit, space-padded and non-ASCII-digit fields (`"２０２４-01-01"`, which Python accepts) are rejected. Years below 1000 are rendered with four digits.
- In-place mutation and aliasing: the loop variant's stages update the caller's dicts. The model builds updated copies, so aliasing between stages (a filtered row later mutated by `compute_sales_growth`) is not represented.
- FunctionalUtils.ParseDate: the recursive `parse_date` calls `.strip()` on its argument and catches only `ValueError`, so a number in a date field raises. The model requires the date fields to hold text or `None`.
- FunctionalPipeline.Growth: the rounding bound is a separate lemma, `FunctionalPipeline.GrowthRounded`, rather than part of the function's contract.
- ImperativePipeline.FillDefaults: what each field ends up holding is stated by `ImperativePipeline.FillDefaultsGet`, not by the function's own contract.
- Statistics.Summarize: the mean, median and variance are the exact real values; the `statistics` module computes them with rational arithmetic and then converts to float.
- Omitted `fill_values` and `required_fields` (`None`) are modelled as the empty dictionary and the empty list, which the source treats the same way.
- A row's key value in `aggregate_sum_by_key` is any field value. An integer and the equal float (`1` and `1.0`) are both `Num(1.0)` and so form one key, as in Python; the Python equality of `True` with `1` is out of reach because booleans are not modelled (next line).
- The value domain is text, numbers and `None`. Rows loaded from JSON can also hold booleans, lists and objects; those values have no counterpart in `Values.Value`, so no stage's behaviour on them is modelled.
