/** The transaction record every parser produces and the analytics consume,
    and the configuration the parsers are parameterised by.  The source keeps
    records as dictionaries; the keys become the fields of `Transaction`, and a
    key the dictionary does not yet hold (`source` before tagging, `category`
    before categorisation) is `None`. */
module Records {
  import opened Wrappers
  import opened Strings
  import opened Dates

  /** The `direction` key: `"income"`, `"expense"`, `"neutral"`, `"transfer"`. */
  datatype Direction = Income | Expense | Neutral | Transfer

  /** The `transfer_type` key: `"self"`, `"family"`, `"other"`. */
  datatype TransferType = ToSelf | ToFamily | ToOther

  /** The `source` key: `"freedom"` or `"kaspi"`. */
  datatype Source = Freedom | Kaspi

  /** The exceptions a text-statement parse can end in: `strptime` rejecting the
      date group, or `Decimal` rejecting the normalised amount. */
  datatype ParseError = BadDate(date: string) | BadDecimal(amount: string)

  datatype Transaction = Transaction(
    date: Date,
    amount: real,
    currency: string,
    operation: string,
    description: string,
    direction: Direction,
    transferType: Option<TransferType>,
    source: Option<Source>,
    category: Option<string>)

  /** The named groups of a `TX_HEAD_RE` match; `details` is an optional group. */
  datatype HeadMatch = HeadMatch(
    date: string,
    amount: string,
    currency: string,
    operation: string,
    details: Option<string>)

  /** An entry of `CATEGORIES`: a name and its patterns, each pattern standing
      for `re.search(pattern, _) is not None`. */
  datatype Category = Category(name: string, patterns: seq<string -> bool>)

  /** What the parsers take from the configuration module, and the per-character
      case maps standing for `str.lower`, `str.upper` and the title case
      `str.capitalize` gives its first character. */
  datatype Config = Config(
    lower: char -> char,
    upper: char -> char,
    title: char -> char,
    footerMarkers: seq<string>,
    // each pattern stands for `re.sub(pattern, "", _, flags=re.IGNORECASE)`
    noisePatterns: seq<string -> string>,
    // `DATE_START_RE.match(_) is not None`
    dateStart: string -> bool,
    // `TX_HEAD_RE.match(_)`
    txHead: string -> Option<HeadMatch>,
    knownOperations: seq<string>,
    selfKeywords: seq<string>,
    familyKeywords: seq<string>,
    categories: seq<Category>)

  const Purchase := "Покупка"
  const TransferOperation := "Перевод"
  const OtherCategory := "Прочее"

  /** `s.lower()`. */
  function Lower(cfg: Config, s: string): (r: string)
    ensures |r| == |s| && forall i :: 0 <= i < |s| ==> r[i] == cfg.lower(s[i])
  {
    MapChars(cfg.lower, s)
  }

  /** `s.upper()`. */
  function Upper(cfg: Config, s: string): (r: string)
    ensures |r| == |s| && forall i :: 0 <= i < |s| ==> r[i] == cfg.upper(s[i])
  {
    MapChars(cfg.upper, s)
  }

  /** `s.capitalize()`: the first character title-cased, the rest lower-cased. */
  function Capitalize(cfg: Config, s: string): (r: string)
    ensures |r| == |s|
    ensures s != [] ==> r[0] == cfg.title(s[0]) && r[1..] == Lower(cfg, s[1..])
  {
    if s == [] then [] else [cfg.title(s[0])] + Lower(cfg, s[1..])
  }

  /** The direction both current parsers derive from a signed amount. */
  function DirectionOf(amount: real): (d: Direction)
    ensures d == Expense <==> amount < 0.0
    ensures d == Income <==> amount > 0.0
    ensures d == Neutral <==> amount == 0.0
  {
    if amount < 0.0 then Expense else if amount > 0.0 then Income else Neutral
  }

  function Abs(x: real): (r: real)
    ensures r >= 0.0 && (r == x || r == -x)
  {
    if x < 0.0 then -x else x
  }
}
