/** The Freedom Bank statement parser (`freedom_parser.py`): amounts in the
    local notation, the head line of an operation, and the page loop that
    runs the line machine on every page and tags the records' source. */
module FreedomParser {
  import opened Wrappers
  import opened Strings
  import opened Decimals
  import opened Dates
  import opened Records
  import opened Cleaner
  import opened LineMachine

  /** U+2212, the typographic minus some statements use. */
  const UnicodeMinus: char := '\U{2212}'

  /** The characters `[^0-9\.\-]` does not delete. */
  predicate AmountChar(c: char) {
    IsDigit(c) || c == '.' || c == '-'
  }

  /** The first step of `_to_decimal`: the Unicode minus becomes `-` and
      spaces are deleted. */
  function Unminus(value: string): string {
    Remove(Replace(value, UnicodeMinus, "-"), ' ')
  }

  /** The separator step: with both a point and a comma present the commas
      are thousands separators and go; otherwise a comma is the decimal
      point. */
  function Separators(a: string): (b: string)
    ensures ',' !in b
  {
    if '.' in a && ',' in a then Remove(a, ',') else Replace(a, ',', ".")
  }

  /** The string `_to_decimal` hands to `Decimal`: after the two steps above,
      everything but digits, points and minus signs is dropped, and nothing
      left is `"0"`. */
  function NormalizeDecimal(value: string): (v: string)
    ensures v != [] && forall i :: 0 <= i < |v| ==> AmountChar(v[i])
  {
    var c := Keep(Separators(Unminus(value)), AmountChar);
    if c == [] then "0" else c
  }

  /** `_to_decimal(value)`: `Decimal` of the normalised string, or the
      exception it raises. */
  function ToDecimal(value: string): (r: Result<real, ParseError>)
    ensures r.Err? ==> r.error == BadDecimal(value)
  {
    match DecimalLiteral(NormalizeDecimal(value))
    case Some(v) => Ok(v)
    case None => Err(BadDecimal(value))
  }

  /** An amount with neither digits nor separators nor minus signs is zero. */
  lemma ToDecimalOfNothing(value: string)
    requires forall x :: x in value ==> !IsDigit(x) && x !in ".,-" && x != UnicodeMinus
    ensures ToDecimal(value) == Ok(0.0)
  {
    ReplaceAbsent(value, UnicodeMinus, "-");
    var a := Unminus(value);
    assert forall x :: x in a ==> x in value;
    ReplaceAbsent(a, ',', ".");
    KeepNone(a, AmountChar);
    ZeroLiteral();
  }

  lemma ZeroLiteral()
    ensures DecimalLiteral("0") == Some(0.0)
  {
    assert FirstDot("0") == 1;
    assert "0"[..1] == "0";
    assert Num("0") == 0 by {
      assert "0"[..0] == [];
    }
  }

  /** The examples of `_to_decimal`'s documentation: grouping spaces and a
      decimal comma, and a negative amount. */
  lemma ToDecimalGrouped()
    ensures ToDecimal("1 234,56") == Ok(1234.56)
  {
    GroupedText();
    ValueOf1234();
    ToDecimalRoundTrip("1 234,56", false, "", "1234", "56");
  }

  lemma ToDecimalNegative()
    ensures ToDecimal("-500,00") == Ok(-500.0)
  {
    PlainText("-");
    ValueOf500();
    ToDecimalRoundTrip("-500,00", true, "-", "500", "00");
  }

  /** The Unicode minus is a minus sign. */
  lemma ToDecimalUnicodeMinus()
    ensures ToDecimal("\U{2212}500,00") == Ok(-500.0)
  {
    PlainText([UnicodeMinus]);
    ValueOf500();
    ToDecimalRoundTrip("\U{2212}500,00", true, [UnicodeMinus], "500", "00");
  }

  lemma GroupedText()
    ensures "1 234,56" == "" + Grouped("1234") + "," + "56"
  {
    assert "1234"[..1] == "1" && "1234"[1..] == "234";
  }

  lemma PlainText(sign: string)
    requires sign == "-" || sign == [UnicodeMinus]
    ensures sign + "500,00" == sign + Grouped("500") + "," + "00"
  {
  }

  lemma ValueOf1234()
    ensures NumeralValue("1234", "56") == 1234.56
  {
    Num4('1', '2', '3', '4');
    Num2('5', '6');
    Num2('1', '2');
    Num2('3', '4');
  }

  lemma ValueOf500()
    ensures NumeralValue("500", "00") == 500.0
  {
    assert "500"[..2] == "50" && "50"[..1] == "5";
    assert "00"[..1] == "0";
  }

  /** With both separators present the comma is a thousands separator. */
  lemma ToDecimalSeparators()
    ensures ToDecimal("1,234.56") == Ok(1234.56)
  {
    ThousandsText();
    ToDecimalThousands("1", "234", "56");
    ValueOf1234();
  }

  lemma ThousandsText()
    ensures "1,234.56" == "1" + "," + "234" + "." + "56" && "1" + "234" == "1234"
  {
  }

  /** An amount with a second decimal point makes `Decimal` raise, which ends
      the parse. */
  lemma ToDecimalTwoPoints(a: string, b: string, c: string)
    requires AllDigits(a) && AllDigits(b) && AllDigits(c)
    ensures ToDecimal(a + "." + b + "." + c) == Err(BadDecimal(a + "." + b + "." + c))
  {
    var s := a + "." + b + "." + c;
    PointedChars(a, b);
    PointedChars(a + "." + b, c);
    NormalizePlain(s);
    TwoPointsRejected(a, b, c);
  }

  lemma PointedChars(x: string, y: string)
    requires forall i :: 0 <= i < |x| ==> AmountChar(x[i])
    requires forall i :: 0 <= i < |y| ==> AmountChar(y[i])
    ensures forall i :: 0 <= i < |x + "." + y| ==> AmountChar((x + "." + y)[i])
  {
    var s := x + "." + y;
    forall i | 0 <= i < |s| ensures AmountChar(s[i]) {
      if i < |x| {
        assert s[i] == x[i];
      } else if i > |x| {
        assert s[i] == y[i - |x| - 1];
      }
    }
  }

  /** A string of digits, points and minus signs is handed to `Decimal` as it
      is. */
  lemma NormalizePlain(s: string)
    requires s != [] && forall i :: 0 <= i < |s| ==> AmountChar(s[i])
    ensures NormalizeDecimal(s) == s
  {
    assert forall x :: x in s ==> AmountChar(x);
    UnminusPlain(s);
    SeparatorsPlain(s);
    KeepAll(s, AmountChar);
  }

  /** An amount written with a comma for thousands and a point for decimals
      has the value of its digits with the comma dropped. */
  lemma ToDecimalThousands(a: string, b: string, f: string)
    requires AllDigits(a) && AllDigits(b) && AllDigits(f) && a != []
    ensures ToDecimal(a + "," + b + "." + f) == Ok(NumeralValue(a + b, f))
  {
    var t := a + b + "." + f;
    UnminusThousands(a, b, f);
    SeparatorsThousands(a, b, f);
    AmountChars("", a + b, f);
    EmptySign(a + b, f);
    KeepAll(t, AmountChar);
    PlainLiteral(a + b, f);
  }

  lemma UnminusThousands(a: string, b: string, f: string)
    requires AllDigits(a) && AllDigits(b) && AllDigits(f)
    ensures Unminus(a + "," + b + "." + f) == a + "," + b + "." + f
  {
    var s := a + "," + b + "." + f;
    assert forall x :: x in s ==> x in a || x in b || x in f || x == ',' || x == '.';
    ReplaceAbsent(s, UnicodeMinus, "-");
    ReplaceAbsent(s, ' ', "");
  }

  lemma SeparatorsThousands(a: string, b: string, f: string)
    requires AllDigits(a) && AllDigits(b) && AllDigits(f)
    ensures Separators(a + "," + b + "." + f) == a + b + "." + f
  {
    ThousandsShape(a, b, f);
    NoCommaInDigits(a);
    NoCommaInDigits(b);
    NoCommaInDigits(f);
    DropComma(a, b + "." + f);
  }

  lemma ThousandsShape(a: string, b: string, f: string)
    ensures var s := a + "," + b + "." + f;
      && s == a + "," + (b + "." + f) && '.' in s && ',' in s
      && a + (b + "." + f) == a + b + "." + f
  {
    var s := a + "," + b + "." + f;
    assert s[|a|] == ',' && s[|a| + 1 + |b|] == '.';
  }

  lemma DropComma(x: string, y: string)
    requires ',' !in x && ',' !in y
    ensures Replace(x + "," + y, ',', "") == x + y
  {
    ReplaceAppend(x + ",", y, ',', "");
    ReplaceAppend(x, ",", ',', "");
    ReplaceAbsent(x, ',', "");
    ReplaceAbsent(y, ',', "");
    assert Replace(",", ',', "") == "";
    assert x + "" == x;
  }

  lemma UnminusPlain(s: string)
    requires UnicodeMinus !in s && ' ' !in s
    ensures Unminus(s) == s
  {
    ReplaceAbsent(s, UnicodeMinus, "-");
    ReplaceAbsent(s, ' ', "");
  }

  lemma SeparatorsPlain(s: string)
    requires ',' !in s
    ensures Separators(s) == s
  {
    ReplaceAbsent(s, ',', ".");
  }

  // ---------------------------------------------------------------------------
  // Amounts the way statements print them
  // ---------------------------------------------------------------------------

  /** Digits in groups of three from the right, separated by spaces. */
  function Grouped(d: string): (g: string)
    ensures forall x :: x in g ==> x in d || x == ' '
    decreases |d|
  {
    if |d| <= 3 then d else Grouped(d[..|d| - 3]) + " " + d[|d| - 3..]
  }

  lemma {:induction false} RemoveGrouped(d: string)
    requires AllDigits(d)
    ensures Remove(Grouped(d), ' ') == d
    decreases |d|
  {
    if |d| <= 3 {
      ReplaceAbsent(d, ' ', "");
    } else {
      var hi, lo := d[..|d| - 3], d[|d| - 3..];
      RemoveGrouped(hi);
      RemoveAtGroup(Grouped(hi), hi, lo);
      assert hi + lo == d;
    }
  }

  /** Taking the spaces out of `g + " " + lo`, for digits `lo`. */
  lemma RemoveAtGroup(g: string, hi: string, lo: string)
    requires Remove(g, ' ') == hi && AllDigits(lo)
    ensures Remove(g + " " + lo, ' ') == hi + lo
  {
    NoSpaceInDigits(lo);
    SpaceRemoved();
    calc {
      Replace(g + " " + lo, ' ', "");
      { ReplaceAppend(g + " ", lo, ' ', ""); }
      Replace(g + " ", ' ', "") + Replace(lo, ' ', "");
      { ReplaceAppend(g, " ", ' ', ""); ReplaceAbsent(lo, ' ', ""); }
      hi + "" + lo;
    }
  }

  lemma SpaceRemoved()
    ensures Replace(" ", ' ', "") == ""
  {
    assert " "[1..] == [];
  }

  lemma NoSpaceInDigits(s: string)
    requires AllDigits(s)
    ensures ' ' !in s
  {
  }

  /** Statement amounts survive normalisation: `_to_decimal` gives back the
      exact value of every amount printed with an optional sign (`-` or `−`),
      the whole part grouped by spaces, a decimal comma and any decimals. */
  lemma ToDecimalRoundTrip(value: string, negative: bool, sign: string, d: string, f: string)
    requires if negative then sign == "-" || sign == [UnicodeMinus] else sign == ""
    requires AllDigits(d) && AllDigits(f) && d != []
    requires value == sign + Grouped(d) + "," + f
    ensures var v := NumeralValue(d, f);
      ToDecimal(value) == Ok(if negative then -v else v)
  {
    var sign' := if negative then "-" else "";
    UnminusOfParts(sign, sign', d, f);
    NormalizeOfParts(value, sign', d, f);
    if negative {
      NegativeLiteral(d, f);
    } else {
      PlainLiteral(d, f);
      EmptySign(d, f);
    }
  }

  lemma UnminusOfParts(sign: string, sign': string, d: string, f: string)
    requires sign == "" || sign == "-" || sign == [UnicodeMinus]
    requires sign' == if sign == "" then "" else "-"
    requires AllDigits(d) && AllDigits(f)
    ensures Unminus(sign + Grouped(d) + "," + f) == sign' + d + "," + f
  {
    UnminusAppend(sign + Grouped(d) + ",", f);
    UnminusAppend(sign + Grouped(d), ",");
    UnminusAppend(sign, Grouped(d));
    UnminusGrouped(d);
    UnminusDigits(f);
    UnminusDigits(",");
    assert Unminus(sign) == sign';
  }

  lemma NormalizeOfParts(value: string, sign: string, d: string, f: string)
    requires sign == "" || sign == "-"
    requires AllDigits(d) && AllDigits(f)
    requires Unminus(value) == sign + d + "," + f
    ensures NormalizeDecimal(value) == sign + d + "." + f
  {
    SeparatorsOfAmount(sign, d, f);
    AmountChars(sign, d, f);
    KeepAll(sign + d + "." + f, AmountChar);
  }

  lemma EmptySign(d: string, f: string)
    ensures "" + d + "." + f == d + "." + f
  {
  }

  lemma UnminusAppend(x: string, y: string)
    ensures Unminus(x + y) == Unminus(x) + Unminus(y)
  {
    ReplaceAppend(x, y, UnicodeMinus, "-");
    ReplaceAppend(Replace(x, UnicodeMinus, "-"), Replace(y, UnicodeMinus, "-"), ' ', "");
  }

  lemma UnminusDigits(s: string)
    requires forall x :: x in s ==> IsDigit(x) || x == ','
    ensures Unminus(s) == s
  {
    ReplaceAbsent(s, UnicodeMinus, "-");
    ReplaceAbsent(s, ' ', "");
  }

  lemma UnminusGrouped(d: string)
    requires AllDigits(d)
    ensures Unminus(Grouped(d)) == d
  {
    NoMinusInDigits(Grouped(d));
    ReplaceAbsent(Grouped(d), UnicodeMinus, "-");
    RemoveGrouped(d);
  }

  lemma SeparatorsOfAmount(sign: string, d: string, f: string)
    requires sign == "" || sign == "-"
    requires AllDigits(d) && AllDigits(f)
    ensures Separators(sign + d + "," + f) == sign + d + "." + f
  {
    CommaAmountHasNoPoint(sign, d, f);
    ReplaceCommaOfAmount(sign, d, f);
  }

  lemma CommaAmountHasNoPoint(sign: string, d: string, f: string)
    requires sign == "" || sign == "-"
    requires AllDigits(d) && AllDigits(f)
    ensures '.' !in sign + d + "," + f
  {
    NoPointInDigits(d);
    NoPointInDigits(f);
    assert forall x :: x in sign + d + "," + f ==> x in sign || x in d || x == ',' || x in f;
  }

  lemma ReplaceCommaOfAmount(sign: string, d: string, f: string)
    requires sign == "" || sign == "-"
    requires AllDigits(d) && AllDigits(f)
    ensures Replace(sign + d + "," + f, ',', ".") == sign + d + "." + f
  {
    ReplaceAppend(sign + d + ",", f, ',', ".");
    ReplaceAppend(sign + d, ",", ',', ".");
    ReplaceAppend(sign, d, ',', ".");
    NoCommaInDigits(d);
    NoCommaInDigits(f);
    ReplaceAbsent(d, ',', ".");
    ReplaceAbsent(f, ',', ".");
    ReplaceAbsent(sign, ',', ".");
  }

  lemma AmountChars(sign: string, d: string, f: string)
    requires sign == "" || sign == "-"
    requires AllDigits(d) && AllDigits(f)
    ensures forall i :: 0 <= i < |sign + d + "." + f| ==> AmountChar((sign + d + "." + f)[i])
  {
    var b := sign + d + "." + f;
    forall i | 0 <= i < |b| ensures AmountChar(b[i]) {
      if |sign| <= i < |sign| + |d| {
        assert b[i] == d[i - |sign|];
      } else if i > |sign| + |d| {
        assert b[i] == f[i - |sign| - |d| - 1];
      }
    }
  }

  lemma NoMinusInDigits(s: string)
    requires forall x :: x in s ==> IsDigit(x) || x == ' '
    ensures UnicodeMinus !in s
  {
  }

  lemma NoPointInDigits(s: string)
    requires AllDigits(s)
    ensures '.' !in s
  {
  }

  lemma NoCommaInDigits(s: string)
    requires AllDigits(s)
    ensures ',' !in s
  {
  }

  // ---------------------------------------------------------------------------
  // The head line
  // ---------------------------------------------------------------------------

  /** `raw.startswith(("−", "-"))`. */
  predicate StartsWithMinus(raw: string) {
    raw != [] && (raw[0] == '-' || raw[0] == UnicodeMinus)
  }

  /** The operation name: capitalised, and `Покупка` unless it is one of the
      known operations. */
  function OperationName(cfg: Config, raw: string): (op: string)
    ensures op in cfg.knownOperations || op == Purchase
    ensures Capitalize(cfg, raw) in cfg.knownOperations ==> op == Capitalize(cfg, raw)
    ensures Capitalize(cfg, raw) !in cfg.knownOperations ==> op == Purchase
  {
    var op := Capitalize(cfg, raw);
    if op in cfg.knownOperations then op else Purchase
  }

  /** The record a matched head line gives, or the exception `strptime` or
      `Decimal` raises on its groups (the date is converted first). */
  function FreedomHead(cfg: Config, m: HeadMatch): (r: Result<Transaction, ParseError>)
    ensures ParseLong(m.date).None? ==> r == Err(BadDate(m.date))
    ensures ParseLong(m.date).Some? && ToDecimal(m.amount).Err? ==> r == Err(BadDecimal(m.amount))
    ensures r.Ok? ==> ParseLong(m.date) == Some(r.value.date) && ToDecimal(m.amount).Ok?
    ensures r.Ok? ==> Abs(r.value.amount) == Abs(ToDecimal(m.amount).value)
    ensures r.Ok? && StartsWithMinus(m.amount) ==> r.value.amount <= 0.0
    ensures r.Ok? && !StartsWithMinus(m.amount) ==> r.value.amount >= 0.0
    ensures r.Ok? ==> FreedomShaped(cfg, r.value)
    ensures r.Ok? ==> && r.value.currency == m.currency
                      && r.value.operation == OperationName(cfg, m.operation)
                      && r.value.description == m.details.GetOr("")
    ensures r.Ok? ==> r.value.source.None?
    ensures r.Err? <==> ParseLong(m.date).None? || ToDecimal(m.amount).Err?
  {
    match ParseLong(m.date)
    case None => Err(BadDate(m.date))
    case Some(date) =>
      match ToDecimal(m.amount)
      case Err(e) => Err(e)
      case Ok(v) =>
        var amount := if StartsWithMinus(m.amount) then -Abs(v) else Abs(v);
        Ok(Transaction(date, amount, m.currency, OperationName(cfg, m.operation),
                       m.details.GetOr(""), DirectionOf(amount), None, None, None))
  }

  /** What every Freedom head record satisfies, whatever its description. */
  predicate FreedomShaped(cfg: Config, tx: Transaction) {
    && Valid(tx.date)
    && tx.direction == DirectionOf(tx.amount)
    && (tx.operation in cfg.knownOperations || tx.operation == Purchase)
    && tx.transferType.None? && tx.category.None?
  }

  /** `_parse_head_line(line)`: `None` when the head pattern does not match;
      a matched line either gives a record or raises. */
  function ParseHeadLine(cfg: Config, line: string): (r: Result<Option<Transaction>, ParseError>)
    ensures r == Ok(None) <==> cfg.txHead(line).None?
    ensures r.Err? ==> cfg.txHead(line).Some? && FreedomHead(cfg, cfg.txHead(line).value) == Err(r.error)
    ensures r.Ok? && r.value.Some? ==> cfg.txHead(line).Some? && FreedomHead(cfg, cfg.txHead(line).value) == Ok(r.value.value)
  {
    match cfg.txHead(line)
    case None => Ok(None)
    case Some(m) =>
      match FreedomHead(cfg, m)
      case Err(e) => Err(e)
      case Ok(tx) => Ok(Some(tx))
  }

  /** A matched head whose date `strptime` rejects ends the parse with that
      date, whatever the rest of the line holds. */
  lemma ImpossibleDateRaises(cfg: Config, line: string)
    requires cfg.txHead(line).Some? && ParseLong(cfg.txHead(line).value.date).None?
    ensures ParseHeadLine(cfg, line) == Err(BadDate(cfg.txHead(line).value.date))
  {
  }

  // ---------------------------------------------------------------------------
  // The statement
  // ---------------------------------------------------------------------------

  function Decoder(cfg: Config): string -> Result<Option<Transaction>, ParseError> {
    line => ParseHeadLine(cfg, line)
  }

  /** The records of a Freedom statement: the line machine over every page,
      each record tagged `freedom`. */
  function FreedomStatement(cfg: Config, pages: seq<seq<string>>): Outcome {
    match Pages(cfg, Decoder(cfg), pages)
    case Err(e) => Err(e)
    case Ok(xs) => Ok(seq(|xs|, i requires 0 <= i < |xs| => xs[i].(source := Some(Freedom))))
  }

  /** `parse_freedom_pdf` after text extraction: the pages one after another,
      then a pass setting `source` on every record. */
  method ParseFreedomPdf(cfg: Config, pages: seq<seq<string>>) returns (r: Outcome)
    ensures r == FreedomStatement(cfg, pages)
  {
    var parsed := ParsePages(cfg, Decoder(cfg), pages);
    if parsed.Err? {
      return Err(parsed.error);
    }
    var txs := parsed.value;
    for i := 0 to |txs|
      invariant |txs| == |parsed.value|
      invariant forall k :: 0 <= k < i ==> txs[k] == parsed.value[k].(source := Some(Freedom))
      invariant forall k :: i <= k < |txs| ==> txs[k] == parsed.value[k]
    {
      txs := txs[i := txs[i].(source := Some(Freedom))];
    }
    assert txs == FreedomStatement(cfg, pages).value;
    return Ok(txs);
  }

  /** Every Freedom record has a valid date, a direction that follows its
      sign, a known operation or `Покупка`, no transfer type, source
      `freedom`, and a cleaned description. */
  lemma FreedomRecords(cfg: Config, pages: seq<seq<string>>)
    requires FreedomStatement(cfg, pages).Ok?
    ensures forall tx :: tx in FreedomStatement(cfg, pages).value ==>
      FreedomShaped(cfg, tx) && tx.source == Some(Freedom) && IsNormal(tx.description)
  {
    var xs := Pages(cfg, Decoder(cfg), pages).value;
    PagesFromHeads(cfg, Decoder(cfg), pages);
    var ys := FreedomStatement(cfg, pages).value;
    forall tx | tx in ys ensures FreedomShaped(cfg, tx) && tx.source == Some(Freedom) && IsNormal(tx.description) {
      var k :| 0 <= k < |ys| && ys[k] == tx;
      assert xs[k] in xs;
      var p, i :| && 0 <= p < |pages| && 0 <= i < |pages[p]| && cfg.dateStart(pages[p][i])
                  && Decoder(cfg)(pages[p][i]).Ok? && Decoder(cfg)(pages[p][i]).value.Some?
                  && Decoder(cfg)(pages[p][i]).value.value == xs[k].(description := Decoder(cfg)(pages[p][i]).value.value.description);
      var h := Decoder(cfg)(pages[p][i]).value.value;
      assert FreedomShaped(cfg, h);
    }
  }
}
