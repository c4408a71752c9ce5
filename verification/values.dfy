/** Field values and records.  A record is a Python dict from field name to
    value: an insertion-ordered association list with distinct keys. */
module Values {
  import opened Dicts
  import Lists

  /** A field value: text, a number (Python int or float, as an exact real),
      or Python's `None`. */
  datatype Value = Str(s: string) | Num(x: real) | Null

  /** One row of the data set. */
  type Row = r: seq<(string, Value)> | UniqueKeys(r)

  /** `v in [None, ""]` */
  predicate IsBlank(v: Value) {
    v == Null || v == Str("")
  }

  /** `r.get(k, d)` */
  function Lookup(r: seq<(string, Value)>, k: string, d: Value): (v: Value)
    ensures Has(r, k) ==> Get(r, k) == Some(v)
    ensures !Has(r, k) ==> v == d
  {
    Get(r, k).GetOr(d)
  }

  /** `r.get(k, "") == "" or r.get(k) is None`: the field is absent, empty or None. */
  predicate Missing(r: seq<(string, Value)>, k: string) {
    !Has(r, k) || IsBlank(Get(r, k).value)
  }

  predicate IsPresent(o: Option<real>) {
    o.Some?
  }

  /** `[v for v in values if v is not None]`: the values that are there, in
      order. */
  function Present(values: seq<Option<real>>): (r: seq<real>)
    ensures |r| == Lists.Count(IsPresent, values)
  {
    var kept := Lists.Filter(IsPresent, values);
    seq(|kept|, i requires 0 <= i < |kept| => kept[i].value)
  }

  function Wrap(x: real): Option<real> {
    Some(x)
  }

  /** Appending a value appends what it contributes. */
  lemma PresentSnoc(values: seq<Option<real>>, v: Option<real>)
    ensures Present(values + [v]) == Present(values) + if v.Some? then [v.value] else []
  {
    Lists.FilterSnoc(IsPresent, values, v);
  }

  /** The first value contributes first. */
  lemma PresentCons(v: Option<real>, values: seq<Option<real>>)
    ensures Present([v] + values) == (if v.Some? then [v.value] else []) + Present(values)
  {
    assert ([v] + values)[1..] == values;
  }

  /** A list of numbers has nothing to remove. */
  lemma PresentWrap(xs: seq<real>)
    ensures Present(Lists.Map(Wrap, xs)) == xs
  {
    Lists.FilterAll(IsPresent, Lists.Map(Wrap, xs));
  }
}
