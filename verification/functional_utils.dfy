/** The helpers of the recursive variant: `parse_date`, which recurses over
    the list of formats, and `stats_summary`, which drops the `None` entries
    with a recursive accumulator before computing the statistics. */
module FunctionalUtils {
  import opened Dicts
  import opened Text
  import opened Values
  import opened Dates
  import Statistics

  /** `try_parse_recursive(fmt_list)`: try the head format on the stripped
      string and recurse on the tail when it fails; once the list is used up,
      give back the original string.  The first format that reads the string
      decides, and its date comes out in ISO form. */
  function TryParseRecursive(dateStr: string, fmts: seq<Format>): (r: string)
    ensures FirstMatch(Strip(dateStr), fmts).None? ==> r == dateStr
    ensures FirstMatch(Strip(dateStr), fmts).Some? ==> r == Iso(FirstMatch(Strip(dateStr), fmts).value)
  {
    if |fmts| == 0 then dateStr
    else
      match Parse(fmts[0], Strip(dateStr))
      case Some(d) => Iso(d)
      case None =>
        FirstMatchTail(Strip(dateStr), fmts);
        TryParseRecursive(dateStr, fmts[1..])
  }

  /** `parse_date(date_str)`: `None` and `""` give `"UNKNOWN"`, any other
      string is reformatted.  A number is outside its domain: `.strip()`
      raises `AttributeError`, which the `except ValueError` does not catch. */
  function ParseDate(v: Value): (r: Value)
    requires !v.Num?
    ensures v == Null || v == Str("") ==> r == Str("UNKNOWN")
    ensures v.Str? && v.s != "" ==> r == Str(Reformat(v.s))
  {
    if v == Null || v == Str("") then Str("UNKNOWN")
    else Str(TryParseRecursive(v.s, Formats))
  }

  /** Parsing what `parse_date` returned changes nothing: `"UNKNOWN"` and
      unreadable strings stay as they are, ISO dates read back as
      themselves. */
  lemma ParseDateIdempotent(v: Value)
    requires !v.Num?
    ensures ParseDate(ParseDate(v)) == ParseDate(v)
  {
    if v == Null || v == Str("") {
      ReformatUnknown();
    } else {
      ReformatIdempotent(v.s);
    }
  }

  /** A canonical `YYYY-MM-DD` string maps to itself. */
  lemma ParseDateCanonical(d: Date)
    requires Valid(d)
    ensures ParseDate(Str(Iso(d))) == Str(Iso(d))
  {
    IsoRecognised(d);
  }

  /** Text that `%d/%m/%Y` reads once stripped is read day first, whatever
      `%m/%d/%Y` would make of it. */
  lemma ParseDateDayFirst(s: string)
    requires s != "" && Parse(Format(DayMonthYear, '/'), Strip(s)).Some?
    ensures ParseDate(Str(s)) == Str(Iso(Parse(Format(DayMonthYear, '/'), Strip(s)).value))
  {
    DayFirstWins(Strip(s));
  }

  /** `parse_date("01/03/2024")` is the first of March. */
  lemma ParseDateDayFirstExample()
    ensures ParseDate(Str("01/03/2024")) == Str(Iso(Date(2024, 3, 1)))
  {
    ReformatDayFirst();
  }

  /** `recursive_clean(lst, acc)`: the accumulator followed by the values of
      `lst` that are not `None`, in order. */
  function RecursiveClean(lst: seq<Option<real>>, acc: seq<real>): (r: seq<real>)
    ensures r == acc + Present(lst)
  {
    if |lst| == 0 then acc
    else
      CleanStep(lst, acc);
      RecursiveClean(lst[1..], if lst[0].Some? then acc + [lst[0].value] else acc)
  }

  lemma CleanStep(lst: seq<Option<real>>, acc: seq<real>)
    requires |lst| > 0
    ensures (if lst[0].Some? then acc + [lst[0].value] else acc) + Present(lst[1..]) == acc + Present(lst)
  {
    assert lst == [lst[0]] + lst[1..];
    PresentCons(lst[0], lst[1..]);
  }

  /** `stats_summary(values)`: `{"count": 0}` when nothing but `None` is
      given, otherwise the statistics of the values that are there. */
  function StatsSummary(values: seq<Option<real>>): (s: Statistics.Summary)
    ensures s == Statistics.Summarize(Present(values))
  {
    var clean := RecursiveClean(values, []);
    assert clean == Present(values);
    Statistics.Summarize(clean)
  }
}
