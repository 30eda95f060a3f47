/** The older single-bank parser (`parser.py`).  It runs the same page state
    machine and the same amount normaliser as the Freedom parser; its head
    decoder differs: a raw amount without a leading minus keeps the sign the
    normaliser gave it, every record is an expense, and no source is set. */
module LegacyParser {
  import opened Wrappers
  import opened Strings
  import opened Dates
  import opened Records
  import opened LineMachine
  import opened FreedomParser

  /** `_parse_head(line)` after a match: the record, or the exception
      `strptime` or `Decimal` raises (the date is converted first). */
  function LegacyHead(cfg: Config, m: HeadMatch): (r: Result<Transaction, ParseError>)
    ensures ParseLong(m.date).None? ==> r == Err(BadDate(m.date))
    ensures ParseLong(m.date).Some? && ToDecimal(m.amount).Err? ==> r == Err(BadDecimal(m.amount))
    ensures r.Ok? ==> ParseLong(m.date) == Some(r.value.date) && ToDecimal(m.amount).Ok?
    ensures r.Ok? && StartsWithMinus(m.amount) ==> r.value.amount <= 0.0
    ensures r.Ok? ==> r.value.direction == Expense
    ensures r.Err? <==> ParseLong(m.date).None? || ToDecimal(m.amount).Err?
  {
    match ParseLong(m.date)
    case None => Err(BadDate(m.date))
    case Some(date) =>
      match ToDecimal(m.amount)
      case Err(e) => Err(e)
      case Ok(v) =>
        var amount := if StartsWithMinus(m.amount) then -Abs(v) else v;
        Ok(Transaction(date, amount, m.currency, OperationName(cfg, m.operation),
                       m.details.GetOr(""), Expense, None, None, None))
  }

  /** The two head decoders succeed and fail together, with the same error;
      their records differ at most in amount and direction, the amounts have
      the same magnitude, and they are equal when the raw amount carries a
      minus or the normalised value is not negative. */
  lemma LegacyAgreesWithFreedom(cfg: Config, m: HeadMatch)
    ensures LegacyHead(cfg, m).Err? <==> FreedomHead(cfg, m).Err?
    ensures LegacyHead(cfg, m).Err? ==> LegacyHead(cfg, m) == FreedomHead(cfg, m)
    ensures LegacyHead(cfg, m).Ok? ==>
      var l, f := LegacyHead(cfg, m).value, FreedomHead(cfg, m).value;
      && l.(amount := f.amount, direction := f.direction) == f
      && Abs(l.amount) == Abs(f.amount)
      && (StartsWithMinus(m.amount) || ToDecimal(m.amount).value >= 0.0 ==> l.amount == f.amount)
  {
  }

  /** Where the two decoders part: a raw amount with no leading minus whose
      normalised value is negative (a sign after a `+`, say) stays negative in
      the legacy parser and becomes positive in the Freedom parser. */
  lemma SignDivergence(cfg: Config, m: HeadMatch)
    requires ParseLong(m.date).Some? && ToDecimal(m.amount).Ok?
    requires !StartsWithMinus(m.amount) && ToDecimal(m.amount).value < 0.0
    ensures LegacyHead(cfg, m).value.amount == ToDecimal(m.amount).value
    ensures FreedomHead(cfg, m).value.amount == -ToDecimal(m.amount).value
    ensures FreedomHead(cfg, m).value.direction == Income
  {
  }

  /** `_parse_head(line)`: `None` when the head pattern does not match. */
  function LegacyHeadLine(cfg: Config, line: string): (r: Result<Option<Transaction>, ParseError>)
    ensures r == Ok(None) <==> cfg.txHead(line).None?
    ensures r.Err? ==> cfg.txHead(line).Some? && LegacyHead(cfg, cfg.txHead(line).value) == Err(r.error)
    ensures r.Ok? && r.value.Some? ==> cfg.txHead(line).Some? && LegacyHead(cfg, cfg.txHead(line).value) == Ok(r.value.value)
  {
    match cfg.txHead(line)
    case None => Ok(None)
    case Some(m) =>
      match LegacyHead(cfg, m)
      case Err(e) => Err(e)
      case Ok(tx) => Ok(Some(tx))
  }

  function LegacyDecoder(cfg: Config): string -> Result<Option<Transaction>, ParseError> {
    line => LegacyHeadLine(cfg, line)
  }

  /** `parse_pdf` after text extraction: the pages one after another. */
  method ParsePdf(cfg: Config, pages: seq<seq<string>>) returns (r: Outcome)
    ensures r == Pages(cfg, LegacyDecoder(cfg), pages)
  {
    r := ParsePages(cfg, LegacyDecoder(cfg), pages);
  }

  /** Every legacy record is an expense with a valid date, a known operation
      or `Покупка`, no transfer type, no source and a cleaned description. */
  lemma LegacyRecords(cfg: Config, pages: seq<seq<string>>)
    requires Pages(cfg, LegacyDecoder(cfg), pages).Ok?
    ensures forall tx :: tx in Pages(cfg, LegacyDecoder(cfg), pages).value ==>
      && tx.direction == Expense && Valid(tx.date)
      && (tx.operation in cfg.knownOperations || tx.operation == Purchase)
      && tx.transferType.None? && tx.source.None? && tx.category.None?
      && IsNormal(tx.description)
  {
    var xs := Pages(cfg, LegacyDecoder(cfg), pages).value;
    PagesFromHeads(cfg, LegacyDecoder(cfg), pages);
    forall tx | tx in xs
      ensures && tx.direction == Expense && Valid(tx.date)
              && (tx.operation in cfg.knownOperations || tx.operation == Purchase)
              && tx.transferType.None? && tx.source.None? && tx.category.None?
    {
      var p, i :| && 0 <= p < |pages| && 0 <= i < |pages[p]| && cfg.dateStart(pages[p][i])
                  && LegacyDecoder(cfg)(pages[p][i]).Ok? && LegacyDecoder(cfg)(pages[p][i]).value.Some?
                  && LegacyDecoder(cfg)(pages[p][i]).value.value
                     == tx.(description := LegacyDecoder(cfg)(pages[p][i]).value.value.description);
    }
  }
}
