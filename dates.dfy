/** The two `datetime.strptime` formats the statement parsers use:
    `%d.%m.%Y` (Freedom and the legacy parser) and `%d.%m.%y` (Kaspi),
    as fixed-width validators over the proleptic Gregorian calendar that
    `datetime` uses.  `%y` maps 00-68 to 2000-2068 and 69-99 to 1969-1999. */
module Dates {
  import opened Wrappers
  import opened Strings
  import opened Decimals

  datatype Date = Date(year: int, month: int, day: int)

  predicate IsLeap(y: int) {
    y % 4 == 0 && (y % 100 != 0 || y % 400 == 0)
  }

  function DaysInMonth(y: int, m: int): (n: int)
    requires 1 <= m <= 12
    ensures 28 <= n <= 31
    ensures n == 29 <==> m == 2 && IsLeap(y)
  {
    if m == 2 then (if IsLeap(y) then 29 else 28)
    else if m == 4 || m == 6 || m == 9 || m == 11 then 30
    else 31
  }

  /** A date `datetime` can represent (years 1 to 9999). */
  predicate Valid(d: Date) {
    1 <= d.year <= 9999 && 1 <= d.month <= 12 && 1 <= d.day <= DaysInMonth(d.year, d.month)
  }

  /** The pivot of `%y`: two-digit years below 69 are in the 2000s. */
  function Century(yy: nat): (y: int)
    requires yy < 100
    ensures 1969 <= y <= 2068 && y % 100 == yy
  {
    if yy < 69 then 2000 + yy else 1900 + yy
  }

  /** `s` has the shape `DD.MM.` followed by `w` digits. */
  predicate Shaped(s: string, w: nat) {
    |s| == 6 + w && s[2] == '.' && s[5] == '.'
    && AllDigits(s[..2]) && AllDigits(s[3..5]) && AllDigits(s[6..])
  }

  /** `datetime.strptime(s, "%d.%m.%Y")`, or `None` where it raises. */
  function ParseLong(s: string): (r: Option<Date>)
    ensures r.Some? ==> Valid(r.value) && Shaped(s, 4)
  {
    if Shaped(s, 4) && Valid(Date(Num(s[6..]), Num(s[3..5]), Num(s[..2])))
    then Some(Date(Num(s[6..]), Num(s[3..5]), Num(s[..2])))
    else None
  }

  /** `datetime.strptime(s, "%d.%m.%y")`, or `None` where it raises. */
  function ParseShort(s: string): (r: Option<Date>)
    ensures r.Some? ==> Valid(r.value) && Shaped(s, 2) && 1969 <= r.value.year <= 2068
  {
    if Shaped(s, 2) && Valid(Date(Century(Num(s[6..])), Num(s[3..5]), Num(s[..2])))
    then Some(Date(Century(Num(s[6..])), Num(s[3..5]), Num(s[..2])))
    else None
  }

  /** `d.strftime("%d.%m.%Y")`. */
  function FormatLong(d: Date): (s: string)
    requires Valid(d)
    ensures Shaped(s, 4)
  {
    PadDigits(d.day, 2) + "." + PadDigits(d.month, 2) + "." + PadDigits(d.year, 4)
  }

  /** `d.strftime("%d.%m.%y")` for a year the pivot can give back. */
  function FormatShort(d: Date): (s: string)
    requires Valid(d) && 1969 <= d.year <= 2068
    ensures Shaped(s, 2)
  {
    PadDigits(d.day, 2) + "." + PadDigits(d.month, 2) + "." + PadDigits(d.year % 100, 2)
  }

  /** A zero-padded digit string is determined by its value and width. */
  lemma {:induction false} PadOfNum(s: string)
    requires AllDigits(s)
    ensures PadDigits(Num(s), |s|) == s
    decreases |s|
  {
    if s != [] {
      var init, last := s[..|s| - 1], s[|s| - 1];
      PadOfNum(init);
      var n := Num(s);
      DivMod10(Num(init), DigitValue(last), n);
      assert DigitChar(DigitValue(last)) == last;
      assert PadDigits(n, |s|) == PadDigits(Num(init), |init|) + [last];
      assert s == init + [last];
    }
  }

  lemma DivMod10(q: nat, d: nat, n: nat)
    requires d < 10 && n == 10 * q + d
    ensures n / 10 == q && n % 10 == d
  {
  }

  lemma Pieces(a: string, b: string, c: string)
    requires |a| == 2 && |b| == 2
    ensures var s := a + "." + b + "." + c;
      s[..2] == a && s[3..5] == b && s[6..] == c && s[2] == '.' && s[5] == '.'
  {
  }

  lemma Assemble(s: string)
    requires |s| >= 6
    ensures s == s[..2] + "." + s[3..5] + "." + s[6..] <==> s[2] == '.' && s[5] == '.'
  {
    if s[2] == '.' && s[5] == '.' {
      assert s == s[..2] + [s[2]] + s[3..5] + [s[5]] + s[6..];
    }
  }

  /** Formatting then parsing gives the date back. */
  lemma LongRoundTrip(d: Date)
    requires Valid(d)
    ensures ParseLong(FormatLong(d)) == Some(d)
  {
    Pieces(PadDigits(d.day, 2), PadDigits(d.month, 2), PadDigits(d.year, 4));
  }

  /** Every string `%d.%m.%Y` accepts is the formatting of its date: parsing
      loses nothing. */
  lemma LongParsedIsFormatted(s: string)
    requires ParseLong(s).Some?
    ensures FormatLong(ParseLong(s).value) == s
  {
    PadOfNum(s[..2]);
    PadOfNum(s[3..5]);
    PadOfNum(s[6..]);
    Assemble(s);
  }

  lemma ShortRoundTrip(d: Date)
    requires Valid(d) && 1969 <= d.year <= 2068
    ensures ParseShort(FormatShort(d)) == Some(d)
  {
    var a, b, c := PadDigits(d.day, 2), PadDigits(d.month, 2), PadDigits(d.year % 100, 2);
    Pieces(a, b, c);
    CenturyOfYear(d.year);
    var s := FormatShort(d);
    assert s[..2] == a && s[3..5] == b && s[6..] == c;
    assert Date(Century(Num(s[6..])), Num(s[3..5]), Num(s[..2])) == d;
  }

  lemma CenturyOfYear(y: int)
    requires 1969 <= y <= 2068
    ensures Century(y % 100) == y
  {
  }

  lemma ShortParsedIsFormatted(s: string)
    requires ParseShort(s).Some?
    ensures FormatShort(ParseShort(s).value) == s
  {
    PadOfNum(s[..2]);
    PadOfNum(s[3..5]);
    PadOfNum(s[6..]);
    Assemble(s);
  }

  lemma Num2(a: char, b: char)
    requires IsDigit(a) && IsDigit(b)
    ensures Num([a, b]) == 10 * DigitValue(a) + DigitValue(b)
  {
    assert [a, b][..1] == [a];
    assert [a][..0] == [];
  }

  lemma Num4(a: char, b: char, c: char, d: char)
    requires IsDigit(a) && IsDigit(b) && IsDigit(c) && IsDigit(d)
    ensures Num([a, b, c, d]) == 100 * Num([a, b]) + Num([c, d])
  {
    NumAppend([a, b], [c, d]);
    assert [a, b] + [c, d] == [a, b, c, d];
  }

  /** Dates from statements: a valid day, a month past December, February 29th
      of a common year, a two-digit year under the long format, and the `%y`
      pivot on both sides. */
  lemma LongExample()
    ensures ParseLong("17.12.2025") == Some(Date(2025, 12, 17))
  {
    Num2('1', '7'); Num2('1', '2'); Num2('2', '0'); Num2('2', '5');
    Num4('2', '0', '2', '5');
    assert "17.12.2025"[..2] == "17" && "17.12.2025"[3..5] == "12" && "17.12.2025"[6..] == "2025";
  }

  lemma MonthPastDecember()
    ensures ParseLong("31.13.2025") == None
  {
    Num2('1', '3');
    assert "31.13.2025"[3..5] == "13";
  }

  lemma CommonYearLeapDay()
    ensures ParseLong("29.02.2023") == None
  {
    Num2('2', '9'); Num2('0', '2'); Num2('2', '0'); Num2('2', '3');
    Num4('2', '0', '2', '3');
    assert "29.02.2023"[..2] == "29" && "29.02.2023"[3..5] == "02" && "29.02.2023"[6..] == "2023";
  }

  lemma ShortYearUnderLongFormat()
    ensures ParseLong("17.12.25") == None
  {
  }

  lemma ShortExamples()
    ensures ParseShort("17.12.25") == Some(Date(2025, 12, 17))
    ensures ParseShort("01.01.70") == Some(Date(1970, 1, 1))
  {
    Num2('1', '7'); Num2('1', '2'); Num2('2', '5'); Num2('0', '1'); Num2('7', '0');
    assert "17.12.25"[..2] == "17" && "17.12.25"[3..5] == "12" && "17.12.25"[6..] == "25";
    assert "01.01.70"[..2] == "01" && "01.01.70"[3..5] == "01" && "01.01.70"[6..] == "70";
  }
}
