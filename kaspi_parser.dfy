/** The Kaspi Bank statement parser (`kaspi_parser.py`), after table
    extraction: each page is a table of rows of optional cells.  A header row
    teaches the columns of the date, the amount, the operation and the
    details; the column indices then carry over to every later row, on this
    page and the pages after it.  A row that looks like an operation is
    decoded, and a row that fails to decode is skipped. */
module KaspiParser {
  import opened Wrappers
  import opened Strings
  import opened Decimals
  import opened Dates
  import opened Records
  import opened Cleaner
  import FreedomParser

  /** U+20B8, the tenge sign. */
  const Tenge: char := '\U{20B8}'

  /** U+2212, the typographic minus, which the Kaspi normaliser does not know. */
  const TypographicMinus: char := '\U{2212}'

  // ---------------------------------------------------------------------------
  // _parse_date
  // ---------------------------------------------------------------------------

  /** `_parse_date(value)`: `%d.%m.%y` of the stripped cell, `None` where
      `strptime` raises. */
  function ParseDate(value: string): (r: Option<Date>)
    ensures r.Some? ==> Valid(r.value) && 1969 <= r.value.year <= 2068
  {
    ParseShort(Strip(value))
  }

  lemma StripUnpadded(s: string)
    requires s != [] && !IsSpace(s[0]) && !IsSpace(s[|s| - 1])
    ensures Strip(s) == s
  {
  }

  /** A date printed `DD.MM.YY` is read back as that date. */
  lemma ParseDateRoundTrip(d: Date)
    requires Valid(d) && 1969 <= d.year <= 2068
    ensures ParseDate(FormatShort(d)) == Some(d)
  {
    var s := FormatShort(d);
    assert IsDigit(s[0]) && IsDigit(s[7]);
    StripUnpadded(s);
    ShortRoundTrip(d);
  }

  // ---------------------------------------------------------------------------
  // _parse_amount
  // ---------------------------------------------------------------------------

  /** The characters `[^0-9\.\-\+]` does not delete. */
  predicate KaspiChar(c: char) {
    IsDigit(c) || c == '.' || c == '-' || c == '+'
  }

  /** The three replacements of `_parse_amount`: the tenge sign and spaces
      go, commas become points. */
  function AmountText(value: string): (t: string)
    ensures Tenge !in t && ' ' !in t && ',' !in t
  {
    Replace(Remove(Remove(value, Tenge), ' '), ',', ".")
  }

  /** The string `_parse_amount` hands to `Decimal`. */
  function NormalizeAmount(value: string): (v: string)
    ensures v != [] && forall i :: 0 <= i < |v| ==> KaspiChar(v[i])
  {
    var c := Keep(AmountText(value), KaspiChar);
    if c == [] then "0" else c
  }

  /** `_parse_amount(value)`; `None` where `Decimal` raises. */
  function ParseAmount(value: string): Option<real> {
    DecimalLiteral(NormalizeAmount(value))
  }

  /** A value holding no digit, point, comma or sign leaves nothing for
      `Decimal`, and `_parse_amount` falls back to 0. */
  lemma ParseAmountOfNothing(value: string)
    requires forall x :: x in value ==> !KaspiChar(x) && x != ','
    ensures ParseAmount(value) == Some(0.0)
  {
    var a := Remove(Remove(value, Tenge), ' ');
    assert forall x :: x in a ==> x in value;
    ReplaceAbsent(a, ',', ".");
    KeepNone(a, KaspiChar);
    FreedomParser.ZeroLiteral();
  }

  lemma AmountTextAppend(x: string, y: string)
    ensures AmountText(x + y) == AmountText(x) + AmountText(y)
  {
    ReplaceAppend(x, y, Tenge, "");
    ReplaceAppend(Remove(x, Tenge), Remove(y, Tenge), ' ', "");
    ReplaceAppend(Remove(Remove(x, Tenge), ' '), Remove(Remove(y, Tenge), ' '), ',', ".");
  }

  lemma AmountTextPlain(s: string)
    requires Tenge !in s && ' ' !in s && ',' !in s
    ensures AmountText(s) == s
  {
    ReplaceAbsent(s, Tenge, "");
    ReplaceAbsent(s, ' ', "");
    ReplaceAbsent(s, ',', ".");
  }

  lemma AmountTextGrouped(d: string)
    requires AllDigits(d)
    ensures AmountText(FreedomParser.Grouped(d)) == d
  {
    GroupedChars(d);
    ReplaceAbsent(FreedomParser.Grouped(d), Tenge, "");
    RemoveGroupedSpaces(d);
    NoCommaIn(d);
    ReplaceAbsent(d, ',', ".");
  }

  lemma GroupedChars(d: string)
    requires AllDigits(d)
    ensures Tenge !in FreedomParser.Grouped(d)
  {
  }

  lemma RemoveGroupedSpaces(d: string)
    requires AllDigits(d)
    ensures Remove(FreedomParser.Grouped(d), ' ') == d
  {
    FreedomParser.RemoveGrouped(d);
  }

  lemma NoCommaIn(d: string)
    requires AllDigits(d)
    ensures ',' !in d && Tenge !in d && ' ' !in d
  {
  }

  lemma AmountTextComma()
    ensures AmountText(",") == "."
  {
  }

  lemma AmountTextSuffix(x: string)
    ensures AmountText(x + " " + [Tenge]) == AmountText(x)
  {
    AmountTextAppend(x, " " + [Tenge]);
    AmountTextTail();
    assert x + " " + [Tenge] == x + (" " + [Tenge]);
    assert AmountText(x) + [] == AmountText(x);
  }

  lemma AmountTextTail()
    ensures AmountText(" " + [Tenge]) == []
  {
    ReplaceAppend(" ", [Tenge], Tenge, "");
    ReplaceAbsent(" ", Tenge, "");
    assert Replace([Tenge], Tenge, "") == [];
    assert Remove(" " + [Tenge], Tenge) == " ";
    assert Remove(" ", ' ') == [];
  }

  /** The text of a printed amount after the replacements. */
  lemma AmountTextOfPrinted(sign: string, d: string, f: string)
    requires sign == "" || sign == "-" || sign == "+" || sign == [TypographicMinus]
    requires AllDigits(d) && AllDigits(f)
    ensures AmountText(sign + FreedomParser.Grouped(d) + "," + f + " " + [Tenge]) == sign + d + "." + f
  {
    AmountTextSuffix(sign + FreedomParser.Grouped(d) + "," + f);
    AmountTextOfNumber(sign, d, f);
  }

  lemma AmountTextOfNumber(sign: string, d: string, f: string)
    requires sign == "" || sign == "-" || sign == "+" || sign == [TypographicMinus]
    requires AllDigits(d) && AllDigits(f)
    ensures AmountText(sign + FreedomParser.Grouped(d) + "," + f) == sign + d + "." + f
  {
    var g := FreedomParser.Grouped(d);
    AmountTextAppend(sign + g + ",", f);
    AmountTextAppend(sign + g, ",");
    AmountTextAppend(sign, g);
    AmountTextPlain(sign);
    AmountTextGrouped(d);
    NoCommaIn(f);
    AmountTextPlain(f);
    AmountTextComma();
  }

  lemma KaspiChars(sign: string, d: string, f: string)
    requires sign == "" || sign == "-" || sign == "+"
    requires AllDigits(d) && AllDigits(f)
    ensures forall i :: 0 <= i < |sign + d + "." + f| ==> KaspiChar((sign + d + "." + f)[i])
  {
    var b := sign + d + "." + f;
    forall i | 0 <= i < |b| ensures KaspiChar(b[i]) {
      if |sign| <= i < |sign| + |d| {
        assert b[i] == d[i - |sign|];
      } else if i > |sign| + |d| {
        assert b[i] == f[i - |sign| - |d| - 1];
      }
    }
  }

  lemma NormalizeOfText(value: string, t: string)
    requires t != [] && AmountText(value) == t
    requires forall i :: 0 <= i < |t| ==> KaspiChar(t[i])
    ensures NormalizeAmount(value) == t
  {
    KeepAll(t, KaspiChar);
  }

  /** A printed Kaspi amount (a sign `-`, `+` or none, the whole part grouped
      by spaces, a decimal comma, the decimals, the tenge sign) is read back as
      its exact value. */
  lemma ParseAmountRoundTrip(value: string, sign: string, d: string, f: string)
    requires sign == "" || sign == "-" || sign == "+"
    requires AllDigits(d) && AllDigits(f) && d != []
    requires value == sign + FreedomParser.Grouped(d) + "," + f + " " + [Tenge]
    ensures var v := NumeralValue(d, f);
      ParseAmount(value) == Some(if sign == "-" then -v else v)
  {
    AmountTextOfPrinted(sign, d, f);
    KaspiChars(sign, d, f);
    NormalizeOfText(value, sign + d + "." + f);
    SignedNumeral(sign, d, f);
  }

  lemma SignedNumeral(sign: string, d: string, f: string)
    requires sign == "" || sign == "-" || sign == "+"
    requires AllDigits(d) && AllDigits(f) && d != []
    ensures var v := NumeralValue(d, f);
      DecimalLiteral(sign + d + "." + f) == Some(if sign == "-" then -v else v)
  {
    if sign == "" {
      PlainLiteral(d, f);
      NoSign(d, f);
    } else if sign == "-" {
      NegativeLiteral(d, f);
    } else {
      PlusLiteral(d, f);
    }
  }

  lemma NoSign(d: string, f: string)
    ensures "" + d + "." + f == d + "." + f
  {
  }

  lemma PlusLiteral(d: string, f: string)
    requires AllDigits(d) && AllDigits(f) && d != []
    ensures DecimalLiteral("+" + d + "." + f) == Some(NumeralValue(d, f))
  {
    UnsignedOfParts(d, f);
    SignedLiteral('+', d + "." + f, NumeralValue(d, f));
    PlusInFront(d, f);
  }

  lemma PlusInFront(d: string, f: string)
    ensures "+" + d + "." + f == ['+'] + (d + "." + f)
  {
  }

  /** The typographic minus is deleted with the other foreign characters, so
      an amount printed with it is read as positive. */
  lemma TypographicMinusDropped(d: string, f: string)
    requires AllDigits(d) && AllDigits(f) && d != []
    ensures ParseAmount([TypographicMinus] + FreedomParser.Grouped(d) + "," + f + " " + [Tenge]) == Some(NumeralValue(d, f))
  {
    var value := [TypographicMinus] + FreedomParser.Grouped(d) + "," + f + " " + [Tenge];
    AmountTextOfPrinted([TypographicMinus], d, f);
    KeepMinus(d, f);
    KaspiChars("", d, f);
    NoSign(d, f);
    KeepAll(d + "." + f, KaspiChar);
    PlainLiteral(d, f);
  }

  lemma KeepMinus(d: string, f: string)
    ensures Keep([TypographicMinus] + d + "." + f, KaspiChar) == Keep(d + "." + f, KaspiChar)
  {
    KeepAppend([TypographicMinus], d + "." + f, KaspiChar);
    assert [TypographicMinus] + d + "." + f == [TypographicMinus] + (d + "." + f);
    assert Keep([TypographicMinus], KaspiChar) == [];
  }

  /** The examples of `_parse_amount`'s documentation. */
  lemma ParseAmountNegativeExample()
    ensures ParseAmount("-2 880,00 \U{20B8}") == Some(-2880.0)
  {
    NegativeExampleText();
    ExampleValues();
    ParseAmountRoundTrip("-2 880,00 \U{20B8}", "-", "2880", "00");
  }

  lemma ParseAmountPositiveExample()
    ensures ParseAmount("+3 000,00 \U{20B8}") == Some(3000.0)
  {
    PositiveExampleText();
    ExampleValues();
    ParseAmountRoundTrip("+3 000,00 \U{20B8}", "+", "3000", "00");
  }

  lemma NegativeExampleText()
    ensures "-2 880,00 \U{20B8}" == "-" + FreedomParser.Grouped("2880") + "," + "00" + " " + [Tenge]
  {
    assert "2880"[..1] == "2" && "2880"[1..] == "880";
  }

  lemma PositiveExampleText()
    ensures "+3 000,00 \U{20B8}" == "+" + FreedomParser.Grouped("3000") + "," + "00" + " " + [Tenge]
  {
    assert "3000"[..1] == "3" && "3000"[1..] == "000";
  }

  lemma ExampleValues()
    ensures NumeralValue("2880", "00") == 2880.0
    ensures NumeralValue("3000", "00") == 3000.0
  {
    Num4('2', '8', '8', '0');
    Num4('3', '0', '0', '0');
    Num2('2', '8'); Num2('8', '0'); Num2('3', '0'); Num2('0', '0');
  }

  // ---------------------------------------------------------------------------
  // Rows
  // ---------------------------------------------------------------------------

  /** A table row as `extract_table` gives it: cells that may be missing. */
  type RawRow = seq<Option<string>>

  /** `[(cell or "").strip() for cell in row]`. */
  function Normalize(raw: RawRow): (row: seq<string>)
    ensures |row| == |raw|
  {
    seq(|raw|, i requires 0 <= i < |raw| => Strip(raw[i].GetOr("")))
  }

  /** After normalisation no cell starts or ends with whitespace, and a missing
      cell is the empty string. */
  lemma NormalizeTrims(raw: RawRow, i: int)
    requires 0 <= i < |raw|
    ensures var c := Normalize(raw)[i];
      c == [] || (!IsSpace(c[0]) && !IsSpace(c[|c| - 1]))
    ensures raw[i].None? ==> Normalize(raw)[i] == []
  {
    StripSpec(raw[i].GetOr(""));
  }

  const DateKey := "дата"
  const AmountKey := "сумм"
  const OperationKey := "операц"
  const DetailsKey := "детал"

  /** `cell.lower() for cell in row if cell`. */
  function LoweredCells(cfg: Config, row: seq<string>): seq<string>
  {
    if row == [] then []
    else (if row[0] != [] then [Lower(cfg, row[0])] else []) + LoweredCells(cfg, row[1..])
  }

  /** Some cell of the row holds `key` once lower-cased. */
  predicate InSomeCell(cfg: Config, row: seq<string>, key: string) {
    exists k :: 0 <= k < |row| && Contains(Lower(cfg, row[k]), key)
  }

  /** `_looks_like_header(row)`. */
  predicate LooksLikeHeader(cfg: Config, row: seq<string>) {
    var joined := Join(" ", LoweredCells(cfg, row));
    Contains(joined, DateKey) && Contains(joined, AmountKey) && Contains(joined, OperationKey)
  }

  lemma NotInEmpty(t: string)
    requires t != []
    ensures !Contains([], t)
  {
    assert !OccursAt([], t, 0);
  }

  /** Some string of `xs` holds `t`. */
  predicate SomeHolds(xs: seq<string>, t: string) {
    exists i :: 0 <= i < |xs| && Contains(xs[i], t)
  }

  lemma SomeHoldsAppend(a: seq<string>, b: seq<string>, t: string)
    ensures SomeHolds(a + b, t) <==> SomeHolds(a, t) || SomeHolds(b, t)
  {
    if SomeHolds(a + b, t) {
      var i :| 0 <= i < |a + b| && Contains((a + b)[i], t);
      if i >= |a| {
        assert b[i - |a|] == (a + b)[i];
      }
    }
    if SomeHolds(a, t) {
      var i :| 0 <= i < |a| && Contains(a[i], t);
      assert (a + b)[i] == a[i];
    }
    if SomeHolds(b, t) {
      var i :| 0 <= i < |b| && Contains(b[i], t);
      assert (a + b)[i + |a|] == b[i];
    }
  }

  lemma InSomeCellCons(cfg: Config, row: seq<string>, t: string)
    requires row != []
    ensures InSomeCell(cfg, row, t) <==> Contains(Lower(cfg, row[0]), t) || InSomeCell(cfg, row[1..], t)
  {
    if InSomeCell(cfg, row[1..], t) {
      var k :| 0 <= k < |row[1..]| && Contains(Lower(cfg, row[1..][k]), t);
      assert Contains(Lower(cfg, row[k + 1]), t);
    }
    if InSomeCell(cfg, row, t) {
      var k :| 0 <= k < |row| && Contains(Lower(cfg, row[k]), t);
      if k > 0 {
        assert Contains(Lower(cfg, row[1..][k - 1]), t);
      }
    }
  }

  lemma HeadCell(cfg: Config, cell: string, t: string)
    requires t != []
    ensures var head := if cell != [] then [Lower(cfg, cell)] else [];
      SomeHolds(head, t) <==> Contains(Lower(cfg, cell), t)
  {
    if cell == [] {
      assert Lower(cfg, cell) == [];
      NotInEmpty(t);
    } else {
      assert [Lower(cfg, cell)][0] == Lower(cfg, cell);
    }
  }

  /** Dropping the empty cells loses no occurrence of a non-empty key. */
  lemma {:induction false} LoweredCellsContain(cfg: Config, row: seq<string>, t: string)
    requires t != []
    ensures SomeHolds(LoweredCells(cfg, row), t) <==> InSomeCell(cfg, row, t)
  {
    if row != [] {
      var head := if row[0] != [] then [Lower(cfg, row[0])] else [];
      LoweredCellsContain(cfg, row[1..], t);
      SomeHoldsAppend(head, LoweredCells(cfg, row[1..]), t);
      HeadCell(cfg, row[0], t);
      InSomeCellCons(cfg, row, t);
    }
  }

  lemma KeyInJoined(cfg: Config, row: seq<string>, key: string)
    requires ' ' !in key && key != []
    ensures Contains(Join(" ", LoweredCells(cfg, row)), key) <==> InSomeCell(cfg, row, key)
  {
    JoinContains(LoweredCells(cfg, row), key);
    LoweredCellsContain(cfg, row, key);
  }

  /** Joining with spaces creates no keyword across two cells: a row is a header
      exactly when each of `дата`, `сумм` and `операц` occurs in one of its
      lower-cased cells. */
  lemma HeaderIff(cfg: Config, row: seq<string>)
    ensures LooksLikeHeader(cfg, row)
      <==> InSomeCell(cfg, row, DateKey) && InSomeCell(cfg, row, AmountKey) && InSomeCell(cfg, row, OperationKey)
  {
    KeyInJoined(cfg, row, DateKey);
    KeyInJoined(cfg, row, AmountKey);
    KeyInJoined(cfg, row, OperationKey);
  }

  /** The prefix `\d{2}\.\d{2}\.\d{2}` that `re.match` looks for. */
  predicate DatePrefix(s: string) {
    && |s| >= 8 && IsDigit(s[0]) && IsDigit(s[1]) && s[2] == '.'
    && IsDigit(s[3]) && IsDigit(s[4]) && s[5] == '.' && IsDigit(s[6]) && IsDigit(s[7])
  }

  /** `_looks_like_transaction_row(row)`: the first cell, not the date column,
      is tested. */
  predicate LooksLikeTransactionRow(row: seq<string>) {
    row != [] && row[0] != [] && DatePrefix(Strip(row[0]))
  }

  /** A row whose first cell is a date `_parse_date` accepts passes the quick
      test. */
  lemma DateCellPasses(row: seq<string>)
    requires row != [] && ParseDate(row[0]).Some?
    ensures LooksLikeTransactionRow(row)
  {
    var s := Strip(row[0]);
    assert Shaped(s, 2);
    assert s[..2][0] == s[0] && s[..2][1] == s[1];
    assert s[3..5][0] == s[3] && s[3..5][1] == s[4];
    assert s[6..][0] == s[6] && s[6..][1] == s[7];
  }

  // ---------------------------------------------------------------------------
  // Column indices
  // ---------------------------------------------------------------------------

  /** Which index a header cell sets. */
  datatype Role = DateColumn | AmountColumn | OperationColumn | DetailsColumn

  /** `idx_date`, `idx_amount`, `idx_operation`, `idx_details`. */
  datatype Columns = Columns(date: Option<nat>, amount: Option<nat>, operation: Option<nat>, details: Option<nat>)
  {
    function Get(role: Role): Option<nat> {
      match role
      case DateColumn => date
      case AmountColumn => amount
      case OperationColumn => operation
      case DetailsColumn => details
    }

    /** The index of `role` set to `i`, the others kept. */
    function Set(role: Role, i: nat): (r: Columns)
      ensures r.Get(role) == Some(i)
      ensures forall o: Role :: o != role ==> r.Get(o) == Get(o)
    {
      match role
      case DateColumn => this.(date := Some(i))
      case AmountColumn => this.(amount := Some(i))
      case OperationColumn => this.(operation := Some(i))
      case DetailsColumn => this.(details := Some(i))
    }

    /** The three indices operation rows need are known. */
    predicate Ready() {
      date.Some? && amount.Some? && operation.Some?
    }
  }

  const NoColumns := Columns(None, None, None, None)

  /** The `if`/`elif` chain of the header loop for one cell: the first keyword
      the lower-cased cell holds decides. */
  function RoleOf(cfg: Config, cell: string): (r: Option<Role>)
    ensures r == Some(DateColumn) <==> Contains(Lower(cfg, cell), DateKey)
    ensures r == Some(AmountColumn) <==>
      Contains(Lower(cfg, cell), AmountKey) && !Contains(Lower(cfg, cell), DateKey)
    ensures r == Some(OperationColumn) <==>
      && Contains(Lower(cfg, cell), OperationKey)
      && !Contains(Lower(cfg, cell), DateKey) && !Contains(Lower(cfg, cell), AmountKey)
    ensures r == Some(DetailsColumn) <==>
      && Contains(Lower(cfg, cell), DetailsKey) && !Contains(Lower(cfg, cell), DateKey)
      && !Contains(Lower(cfg, cell), AmountKey) && !Contains(Lower(cfg, cell), OperationKey)
    ensures r.None? <==>
      && !Contains(Lower(cfg, cell), DateKey) && !Contains(Lower(cfg, cell), AmountKey)
      && !Contains(Lower(cfg, cell), OperationKey) && !Contains(Lower(cfg, cell), DetailsKey)
  {
    var low := Lower(cfg, cell);
    if Contains(low, DateKey) then Some(DateColumn)
    else if Contains(low, AmountKey) then Some(AmountColumn)
    else if Contains(low, OperationKey) then Some(OperationColumn)
    else if Contains(low, DetailsKey) then Some(DetailsColumn)
    else None
  }

  /** The header loop over the cells, left to right. */
  function Learn(cfg: Config, cols: Columns, row: seq<string>): Columns
    decreases |row|
  {
    if row == [] then cols
    else
      var prev := Learn(cfg, cols, row[..|row| - 1]);
      match RoleOf(cfg, row[|row| - 1])
      case None => prev
      case Some(role) => prev.Set(role, |row| - 1)
  }

  /** The role of every cell of the row. */
  function Roles(cfg: Config, row: seq<string>): (rs: seq<Option<Role>>)
    ensures |rs| == |row| && forall i :: 0 <= i < |row| ==> rs[i] == RoleOf(cfg, row[i])
  {
    seq(|row|, i requires 0 <= i < |row| => RoleOf(cfg, row[i]))
  }

  lemma RolesPrefix(cfg: Config, row: seq<string>, n: nat)
    requires n <= |row|
    ensures Roles(cfg, row[..n]) == Roles(cfg, row)[..n]
  {
  }

  predicate HasRole(rs: seq<Option<Role>>, role: Role) {
    exists i :: 0 <= i < |rs| && rs[i] == Some(role)
  }

  /** `i` is the last position that takes `role`. */
  predicate LastWithRole(rs: seq<Option<Role>>, role: Role, i: int) {
    && 0 <= i < |rs| && rs[i] == Some(role)
    && forall j :: i < j < |rs| ==> rs[j] != Some(role)
  }

  lemma HasRoleSnoc(rs: seq<Option<Role>>, role: Role)
    requires rs != []
    ensures HasRole(rs, role) <==> HasRole(rs[..|rs| - 1], role) || rs[|rs| - 1] == Some(role)
  {
    var init := rs[..|rs| - 1];
    if HasRole(init, role) {
      var i :| 0 <= i < |init| && init[i] == Some(role);
      assert init[i] == rs[i];
    }
    if HasRole(rs, role) && rs[|rs| - 1] != Some(role) {
      var i :| 0 <= i < |rs| && rs[i] == Some(role);
      assert init[i] == rs[i];
    }
  }

  lemma LastWithRoleSnoc(rs: seq<Option<Role>>, role: Role, i: int)
    requires rs != [] && rs[|rs| - 1] != Some(role)
    requires LastWithRole(rs[..|rs| - 1], role, i)
    ensures LastWithRole(rs, role, i)
  {
    var init := rs[..|rs| - 1];
    assert rs[i] == init[i];
    forall j | i < j < |rs| ensures rs[j] != Some(role) {
      if j < |init| {
        assert rs[j] == init[j];
      }
    }
  }

  lemma LastIsLast(rs: seq<Option<Role>>, role: Role)
    requires rs != [] && rs[|rs| - 1] == Some(role)
    ensures LastWithRole(rs, role, |rs| - 1)
  {
  }

  /** One step of the header loop, seen through the roles of the cells. */
  lemma LearnLast(cfg: Config, cols: Columns, row: seq<string>, role: Role)
    requires row != []
    ensures var n := |row| - 1;
      Learn(cfg, cols, row).Get(role)
      == if Roles(cfg, row)[n] == Some(role) then Some(n) else Learn(cfg, cols, row[..n]).Get(role)
  {
  }

  /** The last-position invariant survives one more cell. */
  lemma LastWithRoleStep(rs: seq<Option<Role>>, role: Role, prev: Option<nat>, g: Option<nat>, start: Option<nat>)
    requires rs != []
    requires if HasRole(rs[..|rs| - 1], role) then prev.Some? && LastWithRole(rs[..|rs| - 1], role, prev.value)
             else prev == start
    requires g == if rs[|rs| - 1] == Some(role) then Some(|rs| - 1) else prev
    ensures if HasRole(rs, role) then g.Some? && LastWithRole(rs, role, g.value) else g == start
  {
    HasRoleSnoc(rs, role);
    if rs[|rs| - 1] == Some(role) {
      LastIsLast(rs, role);
    } else if HasRole(rs[..|rs| - 1], role) {
      LastWithRoleSnoc(rs, role, prev.value);
    }
  }

  /** After a header the index of a column is the LAST cell that takes that
      role; a role no cell takes keeps the index it had before. */
  lemma {:induction false} LearnSpec(cfg: Config, cols: Columns, row: seq<string>, role: Role)
    ensures var g := Learn(cfg, cols, row).Get(role);
      if HasRole(Roles(cfg, row), role) then g.Some? && LastWithRole(Roles(cfg, row), role, g.value)
      else g == cols.Get(role)
    decreases |row|
  {
    if row != [] {
      var n := |row| - 1;
      LearnSpec(cfg, cols, row[..n], role);
      RolesPrefix(cfg, row, n);
      LearnLast(cfg, cols, row, role);
      LastWithRoleStep(Roles(cfg, row), role, Learn(cfg, cols, row[..n]).Get(role),
                       Learn(cfg, cols, row).Get(role), cols.Get(role));
    }
  }

  /** `дата` has the first place in the chain, so a header always fixes the
      date column, at a cell that holds `дата`. */
  lemma HeaderFixesDate(cfg: Config, cols: Columns, row: seq<string>)
    requires LooksLikeHeader(cfg, row)
    ensures var g := Learn(cfg, cols, row).date;
      g.Some? && g.value < |row| && Contains(Lower(cfg, row[g.value]), DateKey)
  {
    HeaderIff(cfg, row);
    var k :| 0 <= k < |row| && Contains(Lower(cfg, row[k]), DateKey);
    assert Roles(cfg, row)[k] == Some(DateColumn);
    LearnSpec(cfg, cols, row, DateColumn);
  }

  /** The chain can hide a column: when every cell holding `сумм` also holds
      `дата`, the amount index is not learnt, although the row is a header. */
  lemma AmountHiddenByDate(cfg: Config, cols: Columns, row: seq<string>)
    requires forall k :: 0 <= k < |row| && Contains(Lower(cfg, row[k]), AmountKey) ==> Contains(Lower(cfg, row[k]), DateKey)
    ensures Learn(cfg, cols, row).amount == cols.amount
  {
    LearnSpec(cfg, cols, row, AmountColumn);
  }

  /** The header loop of `parse_kaspi_pdf`, on the four indices. */
  method LearnColumns(cfg: Config, cols: Columns, row: seq<string>) returns (r: Columns)
    ensures r == Learn(cfg, cols, row)
  {
    var idxDate, idxAmount, idxOperation, idxDetails := cols.date, cols.amount, cols.operation, cols.details;
    for i := 0 to |row|
      invariant Columns(idxDate, idxAmount, idxOperation, idxDetails) == Learn(cfg, cols, row[..i])
    {
      assert row[..i + 1][..i] == row[..i];
      var low := Lower(cfg, row[i]);
      if Contains(low, DateKey) {
        idxDate := Some(i);
      } else if Contains(low, AmountKey) {
        idxAmount := Some(i);
      } else if Contains(low, OperationKey) {
        idxOperation := Some(i);
      } else if Contains(low, DetailsKey) {
        idxDetails := Some(i);
      }
    }
    assert row[..|row|] == row;
    r := Columns(idxDate, idxAmount, idxOperation, idxDetails);
  }

  // ---------------------------------------------------------------------------
  // Operation rows
  // ---------------------------------------------------------------------------

  /** What every Kaspi record satisfies. */
  predicate KaspiShaped(tx: Transaction) {
    && tx.currency == "KZT" && tx.source == Some(Kaspi)
    && tx.direction == DirectionOf(tx.amount)
    && tx.transferType.None? && tx.category.None?
    && Valid(tx.date) && 1969 <= tx.date.year <= 2068
    && IsNormal(tx.description)
  }

  /** The `try` block for one operation row: `None` where the source takes the
      `continue` (an index past the end of the row, a date `strptime` rejects,
      an amount `Decimal` rejects). */
  function DecodeRow(cfg: Config, cols: Columns, row: seq<string>): (r: Option<Transaction>)
    requires cols.Ready()
    ensures r.Some? <==>
      && cols.date.value < |row| && ParseDate(row[cols.date.value]).Some?
      && cols.amount.value < |row| && ParseAmount(row[cols.amount.value]).Some?
      && cols.operation.value < |row|
      && (cols.details.Some? ==> cols.details.value < |row|)
    ensures r.Some? ==>
      && KaspiShaped(r.value)
      && r.value.date == ParseDate(row[cols.date.value]).value
      && r.value.amount == ParseAmount(row[cols.amount.value]).value
      && r.value.operation == Capitalize(cfg, row[cols.operation.value])
      && r.value.description == Clean(cfg, if cols.details.Some? then row[cols.details.value] else "")
  {
    var d, a, o := cols.date.value, cols.amount.value, cols.operation.value;
    if d >= |row| then None
    else match ParseDate(row[d])
      case None => None
      case Some(date) =>
        if a >= |row| then None
        else match ParseAmount(row[a])
          case None => None
          case Some(amount) =>
            if o >= |row| || (cols.details.Some? && cols.details.value >= |row|) then None
            else
              var description := if cols.details.Some? then row[cols.details.value] else "";
              CleanIsNormal(cfg, description);
              Some(Transaction(date, amount, "KZT", Capitalize(cfg, row[o]), Clean(cfg, description),
                               DirectionOf(amount), None, Some(Kaspi), None))
  }

  /** A row printed the way Kaspi prints operations is decoded to the date and
      the exact amount it shows, with the direction the sign gives. */
  lemma RowRoundTrip(cfg: Config, cols: Columns, row: seq<string>, date: Date, value: string,
                     sign: string, d: string, f: string)
    requires cols.Ready() && (cols.details.Some? ==> cols.details.value < |row|)
    requires cols.date.value < |row| && cols.amount.value < |row| && cols.operation.value < |row|
    requires Valid(date) && 1969 <= date.year <= 2068 && row[cols.date.value] == FormatShort(date)
    requires sign == "" || sign == "-" || sign == "+"
    requires AllDigits(d) && AllDigits(f) && d != []
    requires value == sign + FreedomParser.Grouped(d) + "," + f + " " + [Tenge]
    requires row[cols.amount.value] == value
    ensures var v := NumeralValue(d, f);
      var tx := DecodeRow(cfg, cols, row);
      && tx.Some? && tx.value.date == date
      && tx.value.amount == (if sign == "-" then -v else v)
      && tx.value.direction == (if v == 0.0 then Neutral else if sign == "-" then Expense else Income)
  {
    var v := NumeralValue(d, f);
    ParseDateRoundTrip(date);
    ParseAmountRoundTrip(value, sign, d, f);
    SignedDirection(sign, v);
  }

  lemma SignedDirection(sign: string, v: real)
    requires v >= 0.0
    ensures DirectionOf(if sign == "-" then -v else v)
      == (if v == 0.0 then Neutral else if sign == "-" then Expense else Income)
  {
  }

  // ---------------------------------------------------------------------------
  // The scan over all pages
  // ---------------------------------------------------------------------------

  /** The state the row loop carries: the column indices and the records so far. */
  datatype Scan = Scan(cols: Columns, txs: seq<Transaction>)

  const Start := Scan(NoColumns, [])

  /** One pass of the row loop body. */
  function Step(cfg: Config, st: Scan, raw: RawRow): (r: Scan)
    ensures |st.txs| <= |r.txs| <= |st.txs| + 1 && r.txs[..|st.txs|] == st.txs
    ensures r.cols != st.cols ==> LooksLikeHeader(cfg, Normalize(raw))
    ensures LooksLikeHeader(cfg, Normalize(raw)) ==>
      r.txs == st.txs && r.cols == Learn(cfg, st.cols, Normalize(raw))
    ensures !LooksLikeHeader(cfg, Normalize(raw)) && st.cols.Ready() && LooksLikeTransactionRow(Normalize(raw))
            && DecodeRow(cfg, st.cols, Normalize(raw)).Some? ==>
      r.txs == st.txs + [DecodeRow(cfg, st.cols, Normalize(raw)).value]
    ensures |r.txs| > |st.txs| ==>
      && st.cols.Ready() && LooksLikeTransactionRow(Normalize(raw))
      && DecodeRow(cfg, st.cols, Normalize(raw)) == Some(r.txs[|st.txs|])
      && KaspiShaped(r.txs[|st.txs|])
  {
    var row := Normalize(raw);
    if LooksLikeHeader(cfg, row) then st.(cols := Learn(cfg, st.cols, row))
    else if !st.cols.Ready() || !LooksLikeTransactionRow(row) then st
    else
      match DecodeRow(cfg, st.cols, row)
      case None => st
      case Some(tx) => st.(txs := st.txs + [tx])
  }

  /** The row loop over `rows`, from `st`. */
  function Run(cfg: Config, st: Scan, rows: seq<RawRow>): Scan
    decreases |rows|
  {
    if rows == [] then st else Step(cfg, Run(cfg, st, rows[..|rows| - 1]), rows[|rows| - 1])
  }

  /** The rows of all tables, page after page; a page without a table has none. */
  function AllRows(pages: seq<seq<RawRow>>): seq<RawRow>
    decreases |pages|
  {
    if pages == [] then [] else AllRows(pages[..|pages| - 1]) + pages[|pages| - 1]
  }

  /** `parse_kaspi_pdf` after table extraction. */
  function KaspiStatement(cfg: Config, pages: seq<seq<RawRow>>): seq<Transaction> {
    Run(cfg, Start, AllRows(pages)).txs
  }

  /** Running over two stretches of rows is running over the second from where
      the first ended. */
  lemma {:induction false} RunAppend(cfg: Config, st: Scan, a: seq<RawRow>, b: seq<RawRow>)
    ensures Run(cfg, st, a + b) == Run(cfg, Run(cfg, st, a), b)
    decreases |b|
  {
    if b == [] {
      assert a + b == a;
    } else {
      var b' := b[..|b| - 1];
      RunAppend(cfg, st, a, b');
      InitOfAppend(a, b);
    }
  }

  lemma {:induction false} AllRowsAppend(p: seq<seq<RawRow>>, q: seq<seq<RawRow>>)
    ensures AllRows(p + q) == AllRows(p) + AllRows(q)
    decreases |q|
  {
    if q == [] {
      assert p + q == p;
    } else {
      var q' := q[..|q| - 1];
      AllRowsAppend(p, q');
      InitOfAppend(p, q);
    }
  }

  /** Column indices carry over page boundaries: the pages after the first are
      read with the indices the earlier pages left, header or not. */
  lemma PagesCarryColumns(cfg: Config, p: seq<seq<RawRow>>, q: seq<seq<RawRow>>)
    ensures KaspiStatement(cfg, p + q) == Run(cfg, Run(cfg, Start, AllRows(p)), AllRows(q)).txs
  {
    AllRowsAppend(p, q);
    RunAppend(cfg, Start, AllRows(p), AllRows(q));
  }

  /** The records from position `k` on have the Kaspi shape. */
  predicate ShapedFrom(txs: seq<Transaction>, k: int) {
    forall i :: k <= i < |txs| && 0 <= i ==> KaspiShaped(txs[i])
  }

  lemma ShapedSnoc(a: seq<Transaction>, b: seq<Transaction>, k: nat)
    requires k <= |a| <= |b| <= |a| + 1 && b[..|a|] == a && ShapedFrom(a, k)
    requires |b| > |a| ==> KaspiShaped(b[|a|])
    ensures ShapedFrom(b, k)
  {
    forall i | k <= i < |b| ensures KaspiShaped(b[i]) {
      if i < |a| {
        assert b[i] == b[..|a|][i];
      }
    }
  }

  lemma PrefixOfPrefix(a: seq<Transaction>, b: seq<Transaction>, c: seq<Transaction>)
    requires |a| <= |b| <= |c| && b[..|a|] == a && c[..|b|] == b
    ensures c[..|a|] == a
  {
    assert c[..|a|] == c[..|b|][..|a|];
  }

  /** The records only grow, by at most one per row, and every new one has the
      Kaspi shape. */
  lemma {:induction false} RunGrows(cfg: Config, st: Scan, rows: seq<RawRow>)
    ensures var r := Run(cfg, st, rows);
      && |st.txs| <= |r.txs| <= |st.txs| + |rows| && r.txs[..|st.txs|] == st.txs
      && ShapedFrom(r.txs, |st.txs|)
    decreases |rows|
  {
    if rows == [] {
      assert st.txs[..|st.txs|] == st.txs;
    } else {
      var prev := Run(cfg, st, rows[..|rows| - 1]);
      RunGrows(cfg, st, rows[..|rows| - 1]);
      ShapedSnoc(prev.txs, Step(cfg, prev, rows[|rows| - 1]).txs, |st.txs|);
      PrefixOfPrefix(st.txs, prev.txs, Step(cfg, prev, rows[|rows| - 1]).txs);
    }
  }

  /** Until a header has been seen no row is decoded: without a header row the
      statement is empty. */
  lemma {:induction false} NoHeaderNoRecords(cfg: Config, st: Scan, rows: seq<RawRow>)
    requires !st.cols.Ready()
    requires forall k :: 0 <= k < |rows| ==> !LooksLikeHeader(cfg, Normalize(rows[k]))
    ensures Run(cfg, st, rows) == st
    decreases |rows|
  {
    if rows != [] {
      var init := rows[..|rows| - 1];
      assert forall k :: 0 <= k < |init| ==> init[k] == rows[k];
      NoHeaderNoRecords(cfg, st, init);
    }
  }

  /** What one row gives under known columns: its record when it looks like
      an operation and decodes, nothing otherwise. */
  function RowRecord(cfg: Config, cols: Columns, raw: RawRow): seq<Transaction>
    requires cols.Ready()
  {
    var row := Normalize(raw);
    if LooksLikeTransactionRow(row) && DecodeRow(cfg, cols, row).Some? then [DecodeRow(cfg, cols, row).value] else []
  }

  /** The records a stretch of rows gives under known columns, written
      independently of the scan: every row that looks like an operation and
      decodes contributes its record, in row order, and every other row
      contributes nothing. */
  function Decoded(cfg: Config, cols: Columns, rows: seq<RawRow>): seq<Transaction>
    requires cols.Ready()
    decreases |rows|
  {
    if rows == [] then []
    else Decoded(cfg, cols, rows[..|rows| - 1]) + RowRecord(cfg, cols, rows[|rows| - 1])
  }

  lemma DecodedSnoc(cfg: Config, cols: Columns, rows: seq<RawRow>, raw: RawRow)
    requires cols.Ready()
    ensures Decoded(cfg, cols, rows + [raw]) == Decoded(cfg, cols, rows) + RowRecord(cfg, cols, raw)
  {
    assert (rows + [raw])[..|rows|] == rows;
  }

  lemma {:induction false} DecodedAppend(cfg: Config, cols: Columns, a: seq<RawRow>, b: seq<RawRow>)
    requires cols.Ready()
    ensures Decoded(cfg, cols, a + b) == Decoded(cfg, cols, a) + Decoded(cfg, cols, b)
    decreases |b|
  {
    if b == [] {
      assert a + b == a;
    } else {
      var b' := b[..|b| - 1];
      DecodedAppend(cfg, cols, a, b');
      InitOfAppend(a, b);
    }
  }

  /** A row that fails to decode adds nothing and does not stop the rows after
      it: they give the same records as if it were not there. */
  lemma DecodedSkipsFailing(cfg: Config, cols: Columns, a: seq<RawRow>, bad: RawRow, b: seq<RawRow>)
    requires cols.Ready() && DecodeRow(cfg, cols, Normalize(bad)).None?
    ensures Decoded(cfg, cols, a + [bad] + b) == Decoded(cfg, cols, a) + Decoded(cfg, cols, b)
  {
    DecodedAppend(cfg, cols, a + [bad], b);
    DecodedSnoc(cfg, cols, a, bad);
    assert RowRecord(cfg, cols, bad) == [];
    assert Decoded(cfg, cols, a) + [] == Decoded(cfg, cols, a);
  }

  /** The scan step on a row that is not a header, under known columns. */
  lemma StepWithoutHeader(cfg: Config, st: Scan, raw: RawRow)
    requires st.cols.Ready() && !LooksLikeHeader(cfg, Normalize(raw))
    ensures Step(cfg, st, raw) == Scan(st.cols, st.txs + RowRecord(cfg, st.cols, raw))
  {
  }

  /** Under known columns and without a header, the scan keeps the columns and
      appends exactly the decoded records of the rows. */
  lemma {:induction false} RunWithoutHeaders(cfg: Config, st: Scan, rows: seq<RawRow>)
    requires st.cols.Ready()
    requires forall k :: 0 <= k < |rows| ==> !LooksLikeHeader(cfg, Normalize(rows[k]))
    ensures Run(cfg, st, rows) == Scan(st.cols, st.txs + Decoded(cfg, st.cols, rows))
    decreases |rows|
  {
    if rows == [] {
      assert st.txs + [] == st.txs;
    } else {
      var init := rows[..|rows| - 1];
      var last := rows[|rows| - 1];
      assert forall k :: 0 <= k < |init| ==> init[k] == rows[k];
      RunWithoutHeaders(cfg, st, init);
      var mid := Run(cfg, st, init);
      assert Run(cfg, st, rows) == Step(cfg, mid, last);
      StepWithoutHeader(cfg, mid, last);
      AppendAssoc(st.txs, Decoded(cfg, st.cols, init), RowRecord(cfg, st.cols, last));
    }
  }

  lemma AppendAssoc(a: seq<Transaction>, b: seq<Transaction>, c: seq<Transaction>)
    ensures a + b + c == a + (b + c)
  {
  }

  /** A header row that makes the columns known is followed, up to the next
      header, by exactly the decoded records of the rows after it, in row
      order; rows that fail to decode are passed over. */
  lemma AfterHeader(cfg: Config, st: Scan, header: RawRow, rows: seq<RawRow>)
    requires LooksLikeHeader(cfg, Normalize(header))
    requires Learn(cfg, st.cols, Normalize(header)).Ready()
    requires forall k :: 0 <= k < |rows| ==> !LooksLikeHeader(cfg, Normalize(rows[k]))
    ensures var cols := Learn(cfg, st.cols, Normalize(header));
      Run(cfg, st, [header] + rows) == Scan(cols, st.txs + Decoded(cfg, cols, rows))
  {
    RunAppend(cfg, st, [header], rows);
    assert [header][..0] == [];
    RunWithoutHeaders(cfg, Run(cfg, st, [header]), rows);
  }

  /** Across page boundaries: once the earlier pages leave the columns known,
      later pages without a header add exactly their decoded records, after
      the records of the earlier pages. */
  lemma LaterPagesDecoded(cfg: Config, p: seq<seq<RawRow>>, q: seq<seq<RawRow>>)
    requires Run(cfg, Start, AllRows(p)).cols.Ready()
    requires forall k :: 0 <= k < |AllRows(q)| ==> !LooksLikeHeader(cfg, Normalize(AllRows(q)[k]))
    ensures KaspiStatement(cfg, p + q)
         == KaspiStatement(cfg, p) + Decoded(cfg, Run(cfg, Start, AllRows(p)).cols, AllRows(q))
  {
    PagesCarryColumns(cfg, p, q);
    RunWithoutHeaders(cfg, Run(cfg, Start, AllRows(p)), AllRows(q));
  }

  /** Every Kaspi record has the currency `KZT`, the source `kaspi`, the
      direction its sign gives, no transfer type and no category, a date
      `%y` can give and a cleaned description; there is at most one per row. */
  lemma KaspiRecords(cfg: Config, pages: seq<seq<RawRow>>)
    ensures |KaspiStatement(cfg, pages)| <= |AllRows(pages)|
    ensures forall tx :: tx in KaspiStatement(cfg, pages) ==> KaspiShaped(tx)
  {
    RunGrows(cfg, Start, AllRows(pages));
    var txs := KaspiStatement(cfg, pages);
    assert ShapedFrom(txs, 0);
    forall tx | tx in txs ensures KaspiShaped(tx) {
      var k :| 0 <= k < |txs| && txs[k] == tx;
    }
  }

  lemma RunSnoc(cfg: Config, st: Scan, rows: seq<RawRow>, j: nat)
    requires j < |rows|
    ensures Run(cfg, st, rows[..j + 1]) == Step(cfg, Run(cfg, st, rows[..j]), rows[j])
  {
    assert rows[..j + 1][..j] == rows[..j];
  }

  /** `parse_kaspi_pdf` after table extraction: the page loop and the row loop,
      with the four column indices carried across pages. */
  method ParseKaspiPdf(cfg: Config, pages: seq<seq<RawRow>>) returns (transactions: seq<Transaction>)
    ensures transactions == KaspiStatement(cfg, pages)
  {
    transactions := [];
    var idxDate, idxAmount, idxOperation, idxDetails: Option<nat> := None, None, None, None;
    for p := 0 to |pages|
      invariant Run(cfg, Start, AllRows(pages[..p])) == Scan(Columns(idxDate, idxAmount, idxOperation, idxDetails), transactions)
    {
      var table := pages[p];
      ghost var before := Scan(Columns(idxDate, idxAmount, idxOperation, idxDetails), transactions);
      for j := 0 to |table|
        invariant Run(cfg, before, table[..j]) == Scan(Columns(idxDate, idxAmount, idxOperation, idxDetails), transactions)
      {
        RunSnoc(cfg, before, table, j);
        var cols := Columns(idxDate, idxAmount, idxOperation, idxDetails);
        ghost var st := Scan(cols, transactions);
        var row := Normalize(table[j]);
        if LooksLikeHeader(cfg, row) {
          cols := LearnColumns(cfg, cols, row);
          idxDate, idxAmount, idxOperation, idxDetails := cols.date, cols.amount, cols.operation, cols.details;
        } else if idxDate.Some? && idxAmount.Some? && idxOperation.Some? && LooksLikeTransactionRow(row) {
          var tx := DecodeRow(cfg, cols, row);
          if tx.Some? {
            transactions := transactions + [tx.value];
          }
        }
        assert Scan(Columns(idxDate, idxAmount, idxOperation, idxDetails), transactions) == Step(cfg, st, table[j]);
      }
      assert table[..|table|] == table;
      assert pages[..p + 1][..p] == pages[..p];
      RunAppend(cfg, Start, AllRows(pages[..p]), table);
    }
    assert pages[..|pages|] == pages;
  }
}
