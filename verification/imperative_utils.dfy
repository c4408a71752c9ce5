/** The helpers of the loop variant: `parse_date`, which loops over the
    formats and swallows every exception, and `stats_summary`. */
module ImperativeUtils {
  import opened Dicts
  import opened Text
  import opened Values
  import opened Dates
  import Statistics
  import Lists
  import FunctionalUtils

  /** `datetime.strptime(date_str.strip(), fmt)` on a field value; `None`
      where Python raises.  A number has no `.strip()`, so every attempt on
      it fails. */
  function Attempt(v: Value, f: Format): Option<Date> {
    if v.Str? then Parse(f, Strip(v.s)) else None
  }

  /** What `parse_date` returns: `None` stays `None`, a value no format reads
      (a number among them) comes back unchanged, and otherwise the first
      format that reads the stripped string gives the date in ISO form. */
  function ParseDate(v: Value): Value {
    match v
    case Null => Null
    case Num(_) => v
    case Str(s) => Str(Reformat(s))
  }

  /** `parse_date(date_str)`: `None` is returned at once, anything else
      goes through the formats. */
  method ParseDateLoop(v: Value) returns (r: Value)
    ensures r == ParseDate(v)
  {
    if v.Null? {
      return Null;
    }
    var found := TryFormats(v, Formats);
    match found
    case Some(d) => r := Str(Iso(d));
    case None => r := v;
  }

  /** The `for fmt in formats` loop: the first format whose attempt succeeds
      gives the date; a number fails every attempt. */
  method TryFormats(v: Value, fmts: seq<Format>) returns (found: Option<Date>)
    ensures v.Str? ==> found == FirstMatch(Strip(v.s), fmts)
    ensures !v.Str? ==> found.None?
  {
    var i := 0;
    while i < |fmts|
      invariant 0 <= i <= |fmts|
      invariant v.Str? ==> i <= FirstFormat(Strip(v.s), fmts)
    {
      var d := Attempt(v, fmts[i]);
      if v.Str? {
        FirstFormatStep(Strip(v.s), fmts, i);
      }
      if d.Some? {
        return d;
      }
      i := i + 1;
    }
    return None;
  }

  /** Parsing what `parse_date` returned changes nothing. */
  lemma ParseDateIdempotent(v: Value)
    ensures ParseDate(ParseDate(v)) == ParseDate(v)
  {
    if v.Str? {
      ReformatIdempotent(v.s);
    }
  }

  /** `stats_summary(values)`: drop the `None` entries in a loop, then
      summarise; the same summary as the recursive variant's. */
  method StatsSummary(values: seq<Option<real>>) returns (s: Statistics.Summary)
    ensures s == Statistics.Summarize(Present(values))
    ensures s == FunctionalUtils.StatsSummary(values)
  {
    var clean: seq<real> := [];
    for i := 0 to |values|
      invariant clean == Present(values[..i])
    {
      Lists.TakeSnoc(values, i);
      PresentSnoc(values[..i], values[i]);
      if values[i].Some? {
        clean := clean + [values[i].value];
      }
    }
    assert values[..|values|] == values;
    s := Statistics.Summarize(clean);
  }
}
