/** Number coercion: Python's `float()` on a field value, `safe_float`, and
    `round(x, ndigits)` on exact reals. */
module Numbers {
  import opened Dicts
  import opened Text
  import opened Values
  import Lists

  /** An optionally signed decimal literal with at least one digit and at most
      one point: `12`, `-3.5`, `+.5`, `7.`. */
  function ParseSigned(t: string): Option<real> {
    if |t| > 0 && (t[0] == '+' || t[0] == '-') then
      match ParseUnsigned(t[1..])
      case Some(x) => Some(if t[0] == '-' then -x else x)
      case None => None
    else ParseUnsigned(t)
  }

  function ParseUnsigned(t: string): Option<real> {
    var k := Lists.FirstIndex(t, '.');
    if k == |t| then
      if |t| > 0 && AllDigits(t) then Some(DigitsValue(t) as real) else None
    else
      var whole, frac := t[..k], t[k + 1..];
      if AllDigits(whole) && AllDigits(frac) && |whole| + |frac| > 0 then
        Some(DigitsValue(whole) as real + Fraction(frac))
      else None
  }

  /** The value of the digits after a decimal point. */
  function Fraction(frac: string): real
    requires AllDigits(frac)
  {
    DigitsValue(frac) as real / Pow10(|frac|) as real
  }

  /** `float(s)` for a string `s`: surrounding whitespace is ignored. */
  function ParseFloat(s: string): Option<real> {
    ParseSigned(Strip(s))
  }

  /** `float(v)` on a field value: `None` when Python raises. */
  function ParseNum(v: Value): (r: Option<real>)
    ensures v.Num? ==> r == Some(v.x)
    ensures v.Null? ==> r == None
    ensures v == Str("") ==> r == None
  {
    match v
    case Str(s) => ParseFloat(s)
    case Num(x) => Some(x)
    case Null => None
  }

  /** `safe_float(value, default)`: never fails; the parsed number, or the
      default when `float(value)` raises. */
  function SafeFloat(v: Value, default: real): (r: real)
    ensures ParseNum(v).Some? ==> r == ParseNum(v).value
    ensures ParseNum(v).None? ==> r == default
  {
    ParseNum(v).GetOr(default)
  }

  /** `safe_float(r.get(column, 0))`: a field's number, zero when the row
      lacks the field or its value is no number. */
  function FieldOrZero(r: Row, column: string): (x: real)
    ensures !Has(r, column) ==> x == 0.0
    ensures Has(r, column) ==> x == SafeFloat(Get(r, column).value, 0.0)
  {
    SafeFloat(Lookup(r, column, Num(0.0)), 0.0)
  }

  /** A string of digits reads as the number it denotes. */
  lemma ParseDigits(ds: string)
    requires |ds| > 0 && AllDigits(ds)
    ensures ParseFloat(ds) == Some(DigitsValue(ds) as real)
  {
    DigitNotSpace(ds[0]);
    DigitNotSpace(ds[|ds| - 1]);
    StripTrimmed(ds);
    ParseUnsignedDigits(ds);
  }

  lemma DigitNotSpace(c: char)
    requires IsDigit(c)
    ensures !IsSpace(c)
  {
  }

  lemma ParseUnsignedDigits(ds: string)
    requires |ds| > 0 && AllDigits(ds)
    ensures ParseUnsigned(ds) == Some(DigitsValue(ds) as real)
  {
    var k := Lists.FirstIndex(ds, '.');
    assert k < |ds| ==> IsDigit(ds[k]);
  }

  /** Digits, a point and digits read as a decimal fraction. */
  lemma ParseUnsignedDecimal(a: string, b: string)
    requires AllDigits(a) && AllDigits(b) && |a| > 0
    ensures ParseUnsigned(a + "." + b) == Some(DigitsValue(a) as real + Fraction(b))
  {
    var t := a + "." + b;
    PointAfterDigits(a, b);
    assert t[..|a|] == a && t[|a| + 1..] == b;
  }

  lemma PointAfterDigits(a: string, b: string)
    requires AllDigits(a)
    ensures Lists.FirstIndex(a + "." + b, '.') == |a|
  {
    var t := a + "." + b;
    var k := Lists.FirstIndex(t, '.');
    assert t[|a|] == '.';
    assert forall j :: 0 <= j < |a| ==> t[j] == a[j];
  }

  /** Text that starts with neither a sign, a digit nor a point is no number. */
  lemma NotANumber(t: string)
    requires |t| > 0 && !IsDigit(t[0]) && t[0] !in "+-."
    ensures ParseSigned(t) == None
  {
    var k := Lists.FirstIndex(t, '.');
    assert k > 0;
    assert t[..k][0] == t[0];
  }

  /** `float("abc")` raises, so `safe_float("abc") == 0.0`: text that is no
      number falls back to the default. */
  lemma SafeFloatText()
    ensures ParseNum(Str("abc")) == None
    ensures SafeFloat(Str("abc"), 0.0) == 0.0
  {
    assert !IsSpace('a') && !IsSpace('c');
    StripTrimmed("abc");
    NotANumber("abc");
  }

  /** `safe_float("12.5") == 12.5` */
  lemma SafeFloatDecimal()
    ensures SafeFloat(Str("12.5"), 0.0) == 12.5
  {
    DigitNotSpace('1');
    DigitNotSpace('5');
    StripTrimmed("12.5");
    assert "12.5" == "12" + "." + "5";
    ParseUnsignedDecimal("12", "5");
    assert DigitsValue("12") == 12 by { assert "12"[..1] == "1"; }
    assert Fraction("5") == 0.5 by {
      assert DigitsValue("5") == 5 by { assert "5"[..0] == ""; }
    }
  }

  /** Whitespace around a signed literal is ignored: `safe_float(" -7 ") == -7.0`. */
  lemma SafeFloatPadded()
    ensures SafeFloat(Str(" -7 "), 0.0) == -7.0
  {
    StripPadded();
    NegativeSeven();
  }

  lemma StripPadded()
    ensures Strip(" -7 ") == "-7"
  {
    assert LeadingSpaces(" -7 ") == 1 by { assert " -7 "[1..][0] == '-'; }
    assert TrailingSpaces(" -7 ") == 1 by { assert " -7 "[..3][2] == '7'; }
  }

  lemma NegativeSeven()
    ensures ParseSigned("-7") == Some(-7.0)
  {
    assert "-7"[1..] == "7";
    ParseUnsignedDigits("7");
    assert DigitsValue("7") == 7 by { assert "7"[..0] == ""; }
  }

  /** `10 ** p` as a real, for any integer `p`. */
  function Scale(p: int): (s: real)
    ensures s > 0.0
  {
    if p >= 0 then Pow10(p) as real else 1.0 / Pow10(-p) as real
  }

  /** The integer nearest to `y`, ties going to the even neighbour. */
  function RoundHalfEven(y: real): (n: int)
    ensures -0.5 <= n as real - y <= 0.5
    ensures (n as real - y == 0.5 || y - n as real == 0.5) ==> n % 2 == 0
  {
    var f := y.Floor;
    var d := y - f as real;
    if d < 0.5 then f
    else if d > 0.5 then f + 1
    else if f % 2 == 0 then f
    else f + 1
  }

  /** `round(x, p)`: `x` scaled by `10 ** p`, rounded to the nearest integer
      (ties to even) and scaled back. */
  function Round(x: real, p: int): real {
    RoundHalfEven(x * Scale(p)) as real / Scale(p)
  }

  /** The result of `round(x, p)` is a whole multiple of `10 ** -p` within
      half a unit of `x`, and on a tie the multiple is even. */
  lemma RoundBounds(x: real, p: int)
    ensures Round(x, p) * Scale(p) == RoundHalfEven(x * Scale(p)) as real
    ensures -0.5 <= Round(x, p) * Scale(p) - x * Scale(p) <= 0.5
  {
    DivMul(RoundHalfEven(x * Scale(p)) as real, Scale(p));
  }

  lemma DivMul(n: real, s: real)
    requires s > 0.0
    ensures (n / s) * s == n
  {
  }

  /** An integer is its own nearest integer. */
  lemma RoundHalfEvenInteger(n: int)
    ensures RoundHalfEven(n as real) == n
  {
    assert (n as real).Floor == n;
  }

  /** Rounding what is already rounded changes nothing. */
  lemma RoundIdempotent(x: real, p: int)
    ensures Round(Round(x, p), p) == Round(x, p)
  {
    var r := Round(x, p);
    var n := RoundHalfEven(x * Scale(p));
    RoundBounds(x, p);
    RoundHalfEvenInteger(n);
    assert RoundHalfEven(r * Scale(p)) == n;
    RoundUnfold(x, p);
    RoundUnfold(r, p);
  }

  lemma RoundUnfold(x: real, p: int)
    ensures Round(x, p) == RoundHalfEven(x * Scale(p)) as real / Scale(p)
  {
  }

  /** The number-normalisation of one field: `round(safe_float(v), p)`. */
  function RoundValue(v: Value, precision: int): (w: Value)
    ensures w.Num? && w.x == Round(SafeFloat(v, 0.0), precision)
  {
    Num(Round(SafeFloat(v, 0.0), precision))
  }

  /** Normalising a normalised number changes nothing. */
  lemma RoundValueIdempotent(v: Value, precision: int)
    ensures RoundValue(RoundValue(v, precision), precision) == RoundValue(v, precision)
  {
    RoundIdempotent(SafeFloat(v, 0.0), precision);
  }
}
