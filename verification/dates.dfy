/** Calendar dates, the four accepted layouts, and `strptime` / `strftime`
    restricted to fixed-width numeric fields (four-digit year, two-digit
    month and day). */
module Dates {
  import opened Dicts
  import opened Text

  datatype Date = Date(year: int, month: int, day: int)

  predicate IsLeap(y: int) {
    y % 4 == 0 && (y % 100 != 0 || y % 400 == 0)
  }

  function DaysInMonth(y: int, m: int): (n: int)
    requires 1 <= m <= 12
    ensures 28 <= n <= 31
  {
    if m == 2 then (if IsLeap(y) then 29 else 28)
    else if m == 4 || m == 6 || m == 9 || m == 11 then 30
    else 31
  }

  /** A date Python's `datetime` can represent: years 1 to 9999 of the
      proleptic Gregorian calendar. */
  predicate Valid(d: Date) {
    1 <= d.year <= 9999 && 1 <= d.month <= 12 && 1 <= d.day <= DaysInMonth(d.year, d.month)
  }

  datatype Layout = YearMonthDay | DayMonthYear | MonthDayYear

  /** A date format: the order of the fields and the separator between them. */
  datatype Format = Format(layout: Layout, sep: char)

  /** `%Y-%m-%d` */
  const IsoFormat: Format := Format(YearMonthDay, '-')

  /** `["%Y-%m-%d", "%d/%m/%Y", "%m/%d/%Y", "%d-%m-%Y"]`, in the order tried. */
  const Formats: seq<Format> := [IsoFormat, Format(DayMonthYear, '/'), Format(MonthDayYear, '/'), Format(DayMonthYear, '-')]

  /** `n` written with exactly `width` decimal digits, zero-padded. */
  function Pad(n: nat, width: nat): (r: string)
    requires n < Pow10(width)
    ensures |r| == width && AllDigits(r) && DigitsValue(r) == n
  {
    if width == 0 then ""
    else
      var r := Pad(n / 10, width - 1) + [DigitChar(n % 10)];
      assert r[..width - 1] == Pad(n / 10, width - 1);
      r
  }

  /** A digit string is the padding of the number it denotes. */
  lemma {:induction false} PadDigits(s: string)
    requires AllDigits(s)
    ensures Pad(DigitsValue(s), |s|) == s
  {
    if |s| > 0 {
      var init, c := s[..|s| - 1], s[|s| - 1];
      var a, d := DigitsValue(init), DigitValue(c);
      assert DigitsValue(s) == 10 * a + d;
      DivModDigit(a, d);
      PadLast(DigitsValue(s), |s|);
      CharOfDigit(c);
      PadDigits(init);
      assert s == init + [c];
    }
  }

  lemma PadLast(n: nat, width: nat)
    requires 0 < width && n < Pow10(width)
    ensures Pad(n, width) == Pad(n / 10, width - 1) + [DigitChar(n % 10)]
  {
  }

  lemma CharOfDigit(c: char)
    requires IsDigit(c)
    ensures DigitChar(DigitValue(c)) == c
  {
  }

  lemma DivModDigit(a: nat, d: nat)
    requires d < 10
    ensures (10 * a + d) / 10 == a && (10 * a + d) % 10 == d
  {
  }

  /** `date.strftime(fmt)` */
  function Render(f: Format, d: Date): (s: string)
    requires Valid(d)
    ensures |s| == 10
  {
    var y, m, dd := Pad(d.year, 4), Pad(d.month, 2), Pad(d.day, 2);
    match f.layout
    case YearMonthDay => y + [f.sep] + m + [f.sep] + dd
    case DayMonthYear => dd + [f.sep] + m + [f.sep] + y
    case MonthDayYear => m + [f.sep] + dd + [f.sep] + y
  }

  /** Where the two separators sit in a ten-character date of this layout. */
  function Separators(l: Layout): (nat, nat) {
    if l == YearMonthDay then (4, 7) else (2, 5)
  }

  /** The date whose fields, in the layout's order, are the digit strings
      `a`, `b` and `c`. */
  function Assemble(l: Layout, a: string, b: string, c: string): Date
    requires AllDigits(a) && AllDigits(b) && AllDigits(c)
  {
    match l
    case YearMonthDay => Date(DigitsValue(a), DigitsValue(b), DigitsValue(c))
    case DayMonthYear => Date(DigitsValue(c), DigitsValue(b), DigitsValue(a))
    case MonthDayYear => Date(DigitsValue(c), DigitsValue(a), DigitsValue(b))
  }

  /** Writing an assembled date reproduces its fields when they have the
      widths the layout prints. */
  lemma RenderAssemble(f: Format, a: string, b: string, c: string)
    requires AllDigits(a) && AllDigits(b) && AllDigits(c)
    requires Separators(f.layout) == (2, 5) ==> |a| == 2 && |b| == 2 && |c| == 4
    requires Separators(f.layout) == (4, 7) ==> |a| == 4 && |b| == 2 && |c| == 2
    requires Valid(Assemble(f.layout, a, b, c))
    ensures Render(f, Assemble(f.layout, a, b, c)) == a + [f.sep] + b + [f.sep] + c
  {
    PadDigits(a);
    PadDigits(b);
    PadDigits(c);
  }

  /** `datetime.strptime(s, fmt)`; `None` where Python raises `ValueError`.
      Whatever it accepts is a valid date that the same format writes back
      as `s`. */
  function Parse(f: Format, s: string): (r: Option<Date>)
    ensures r.Some? ==> Valid(r.value) && Render(f, r.value) == s
  {
    if |s| != 10 then None
    else
      var (i, j) := Separators(f.layout);
      var a, b, c := s[..i], s[i + 1..j], s[j + 1..];
      if s[i] != f.sep || s[j] != f.sep || !AllDigits(a) || !AllDigits(b) || !AllDigits(c) then None
      else if Valid(Assemble(f.layout, a, b, c)) then
        RenderAssemble(f, a, b, c);
        assert s == a + [f.sep] + b + [f.sep] + c;
        Some(Assemble(f.layout, a, b, c))
      else None
  }

  /** `strptime` reads back what `strftime` wrote with the same format. */
  lemma ParseRender(f: Format, d: Date)
    requires Valid(d)
    ensures Parse(f, Render(f, d)) == Some(d)
  {
    var s := Render(f, d);
    var (i, j) := Separators(f.layout);
    var y, m, dd := Pad(d.year, 4), Pad(d.month, 2), Pad(d.day, 2);
    match f.layout
    case YearMonthDay =>
      assert s[..i] == y && s[i + 1..j] == m && s[j + 1..] == dd;
    case DayMonthYear =>
      assert s[..i] == dd && s[i + 1..j] == m && s[j + 1..] == y;
    case MonthDayYear =>
      assert s[..i] == m && s[i + 1..j] == dd && s[j + 1..] == y;
  }

  /** Position of the first format that reads `s`, or `|fmts|` when none
      does. */
  function FirstFormat(s: string, fmts: seq<Format>): (i: nat)
    ensures i <= |fmts|
    ensures forall j :: 0 <= j < i ==> Parse(fmts[j], s).None?
    ensures i < |fmts| ==> Parse(fmts[i], s).Some?
  {
    if |fmts| == 0 then 0
    else if Parse(fmts[0], s).Some? then 0
    else
      var i := FirstFormat(s, fmts[1..]);
      assert forall j :: 1 <= j < |fmts| ==> fmts[j] == fmts[1..][j - 1];
      1 + i
  }

  /** Try the formats in order; the first that parses wins. */
  function FirstMatch(s: string, fmts: seq<Format>): (r: Option<Date>)
    ensures r.None? <==> forall i :: 0 <= i < |fmts| ==> Parse(fmts[i], s).None?
    ensures r.Some? ==> Valid(r.value)
  {
    var i := FirstFormat(s, fmts);
    if i < |fmts| then Parse(fmts[i], s) else None
  }

  /** When the head format fails, the search goes on in the tail. */
  lemma FirstMatchTail(s: string, fmts: seq<Format>)
    requires |fmts| > 0 && Parse(fmts[0], s).None?
    ensures FirstMatch(s, fmts) == FirstMatch(s, fmts[1..])
  {
    var i := FirstFormat(s, fmts[1..]);
    assert FirstFormat(s, fmts) == 1 + i;
    assert i < |fmts| - 1 ==> fmts[1 + i] == fmts[1..][i];
  }

  /** The canonical output: every character a digit or a dash, so
      surrounding whitespace is never an issue. */
  function Iso(d: Date): (s: string)
    requires Valid(d)
    ensures |s| == 10 && !IsSpace(s[0]) && !IsSpace(s[9])
  {
    var s := Render(IsoFormat, d);
    assert IsDigit(s[0]) && IsDigit(s[9]);
    s
  }

  /** A canonical date string is recognised by the first format as itself. */
  lemma IsoRecognised(d: Date)
    requires Valid(d)
    ensures Strip(Iso(d)) == Iso(d)
    ensures FirstMatch(Iso(d), Formats) == Some(d)
  {
    StripTrimmed(Iso(d));
    ParseRender(IsoFormat, d);
    FirstMatchAt(Iso(d), Formats, 0);
  }

  /** An ambiguous `a/b/yyyy` is read as day/month: whenever the day-first
      slash format accepts a string, the formats tried before it do not, so
      it wins over the month-first one. */
  lemma DayFirstWins(s: string)
    requires Parse(Format(DayMonthYear, '/'), s).Some?
    ensures FirstMatch(s, Formats) == Parse(Format(DayMonthYear, '/'), s)
  {
    var d := Parse(Format(DayMonthYear, '/'), s).value;
    assert s[4] == s[3..5][1];
    assert IsDigit(s[4]);
    assert Parse(Formats[0], s).None?;
    FirstMatchAt(s, Formats, 1);
  }

  /** One step of the search: a format at or before the first match either
      is the first match or lets the search move past it. */
  lemma FirstFormatStep(s: string, fmts: seq<Format>, i: nat)
    requires i < |fmts| && i <= FirstFormat(s, fmts)
    ensures Parse(fmts[i], s).Some? ==> FirstMatch(s, fmts) == Parse(fmts[i], s)
    ensures Parse(fmts[i], s).None? ==> i + 1 <= FirstFormat(s, fmts)
  {
  }

  /** The format at position `i` decides when it is the first to parse. */
  lemma FirstMatchAt(s: string, fmts: seq<Format>, i: nat)
    requires i < |fmts| && Parse(fmts[i], s).Some?
    requires forall j :: 0 <= j < i ==> Parse(fmts[j], s).None?
    ensures FirstMatch(s, fmts) == Parse(fmts[i], s)
  {
    var k := FirstFormat(s, fmts);
    assert !(k < i) && !(i < k);
  }

  /** Reading a string made of three digit fields and two separators, the
      fields of the widths the layout expects. */
  lemma ParseFields(f: Format, a: string, b: string, c: string)
    requires Separators(f.layout) == (|a|, |a| + 1 + |b|) && |a| + |b| + |c| == 8
    requires AllDigits(a) && AllDigits(b) && AllDigits(c)
    ensures Parse(f, a + [f.sep] + b + [f.sep] + c)
      == if Valid(Assemble(f.layout, a, b, c)) then Some(Assemble(f.layout, a, b, c)) else None
  {
    var s := a + [f.sep] + b + [f.sep] + c;
    var (i, j) := Separators(f.layout);
    assert s[..i] == a;
    assert s[i + 1..j] == b;
    assert s[j + 1..] == c;
  }

  lemma TwoDigits(s: string)
    requires |s| == 2 && AllDigits(s)
    ensures DigitsValue(s) == 10 * DigitValue(s[0]) + DigitValue(s[1])
  {
    assert s[..1][..0] == [];
  }

  lemma Digits2024()
    ensures AllDigits("2024") && DigitsValue("2024") == 2024
  {
    assert "2024"[..3] == "202" && "202"[..2] == "20" && "20"[..1] == "2";
  }

  /** `01/03/2024` is the first of March. */
  lemma DayFirstExample()
    ensures FirstMatch("01/03/2024", Formats) == Some(Date(2024, 3, 1))
  {
    var f := Format(DayMonthYear, '/');
    assert "01/03/2024" == "01" + [f.sep] + "03" + [f.sep] + "2024";
    TwoDigits("01");
    TwoDigits("03");
    Digits2024();
    ParseFields(f, "01", "03", "2024");
    DayFirstWins("01/03/2024");
  }

  lemma Parse0325DayFirst()
    ensures Parse(Format(DayMonthYear, '/'), "03/25/2024").None?
  {
    var f := Format(DayMonthYear, '/');
    assert "03/25/2024" == "03" + [f.sep] + "25" + [f.sep] + "2024";
    TwoDigits("03");
    TwoDigits("25");
    Digits2024();
    ParseFields(f, "03", "25", "2024");
  }

  lemma Parse0325MonthFirst()
    ensures Parse(Format(MonthDayYear, '/'), "03/25/2024") == Some(Date(2024, 3, 25))
  {
    var f := Format(MonthDayYear, '/');
    assert "03/25/2024" == "03" + [f.sep] + "25" + [f.sep] + "2024";
    TwoDigits("03");
    TwoDigits("25");
    Digits2024();
    ParseFields(f, "03", "25", "2024");
  }

  /** `03/25/2024` has no 25th month, so the month-first format reads it. */
  lemma MonthFirstFallback()
    ensures FirstMatch("03/25/2024", Formats) == Some(Date(2024, 3, 25))
  {
    Parse0325Iso();
    Parse0325DayFirst();
    Parse0325MonthFirst();
    ThirdFormatWins("03/25/2024");
  }

  lemma Parse0325Iso()
    ensures Parse(IsoFormat, "03/25/2024").None?
  {
    var s := "03/25/2024";
    assert s[4] == '5';
  }

  /** The month-first format decides when the two formats before it fail. */
  lemma ThirdFormatWins(s: string)
    requires Parse(IsoFormat, s).None? && Parse(Format(DayMonthYear, '/'), s).None?
    requires Parse(Format(MonthDayYear, '/'), s).Some?
    ensures FirstMatch(s, Formats) == Parse(Format(MonthDayYear, '/'), s)
  {
    FirstMatchAt(s, Formats, 2);
  }

  lemma Parse0230Iso()
    ensures Parse(IsoFormat, "2024-02-30").None?
  {
    var f := IsoFormat;
    assert "2024-02-30" == "2024" + [f.sep] + "02" + [f.sep] + "30";
    Fields0230();
    ParseFields(f, "2024", "02", "30");
  }

  lemma Fields0230()
    ensures AllDigits("2024") && AllDigits("02") && AllDigits("30")
    ensures !Valid(Assemble(YearMonthDay, "2024", "02", "30"))
  {
    TwoDigits("02");
    TwoDigits("30");
    Digits2024();
    assert Assemble(YearMonthDay, "2024", "02", "30") == Date(2024, 2, 30);
    assert DaysInMonth(2024, 2) == 29;
  }

  /** The thirtieth of February is no date in any format. */
  lemma InvalidDayRejected()
    ensures FirstMatch("2024-02-30", Formats).None?
  {
    var s := "2024-02-30";
    Parse0230Iso();
    assert s[2] == '2';
    assert forall i :: 1 <= i < 4 ==> Parse(Formats[i], s).None?;
  }

  /** What both variants of `parse_date` make of a string: the ISO form of
      the first format that reads the stripped string, or the string itself,
      unstripped, when none does. */
  function Reformat(s: string): (r: string)
    ensures FirstMatch(Strip(s), Formats).None? ==> r == s
    ensures FirstMatch(Strip(s), Formats).Some? ==> r == Iso(FirstMatch(Strip(s), Formats).value) && |r| == 10
  {
    match FirstMatch(Strip(s), Formats)
    case Some(d) => Iso(d)
    case None => s
  }

  /** Reformatting is idempotent: an ISO date is read back as itself, and a
      string no format reads stays unread. */
  lemma ReformatIdempotent(s: string)
    ensures Reformat(Reformat(s)) == Reformat(s)
  {
    match FirstMatch(Strip(s), Formats)
    case Some(d) => IsoRecognised(d);
    case None =>
  }

  /** Text of the wrong length is never a date: `"UNKNOWN"` stays as it is. */
  lemma ReformatUnknown()
    ensures Reformat("UNKNOWN") == "UNKNOWN"
  {
    StripTrimmed("UNKNOWN");
    assert forall i :: 0 <= i < |Formats| ==> Parse(Formats[i], "UNKNOWN").None?;
  }

  /** An ambiguous `01/03/2024` is the first of March. */
  lemma ReformatDayFirst()
    ensures Reformat("01/03/2024") == Iso(Date(2024, 3, 1))
  {
    StripTrimmed("01/03/2024");
    DayFirstExample();
  }
}
