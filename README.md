# Bank statement reconstruction, modelled in Dafny

The system turns bank statements into a uniform list of transaction records,
then computes analytics over that list. It reads two formats:

- **Freedom Bank** statements are loose text. An operation starts on a line that
  begins with a date and may continue over the lines after it.
- **Kaspi Bank** statements are tables. A header row names the columns, and later
  pages may carry no header.

An older single-bank text parser and an older transfer classifier are also part
of the repository. The model covers these pieces, one Dafny module each:

| module | file | models |
|---|---|---|
| `Wrappers` | `wrappers.dfy` | `Option` and `Result` |
| `Strings` | `strings.dfy` | substring search, `replace`, `re.sub` for one character class, `strip`, whitespace collapse, `" ".join` |
| `Decimals` | `decimals.dfy` | digit strings and what `Decimal(...)` accepts: an optional sign, digits, at most one point |
| `Dates` | `dates.dfy` | `strptime` with `%d.%m.%Y` and `%d.%m.%y` over the Gregorian calendar, with the `%y` pivot at 69 |
| `Records` | `records.dfy` | the transaction record, the configuration, case maps and the direction of an amount |
| `Cleaner` | `cleaner.dfy` | `strip_footer` and `clean_description` |
| `LineMachine` | `line_machine.dfy` | the two-state page machine that the Freedom parser and the legacy parser share |
| `FreedomParser` | `freedom_parser.dfy` | `_to_decimal`, `_parse_head_line`, `parse_freedom_pdf` |
| `LegacyParser` | `legacy_parser.dfy` | `parser.py`: `_parse_head` and `parse_pdf` |
| `KaspiParser` | `kaspi_parser.dfy` | `_parse_date`, `_parse_amount`, the header and row tests, and the row and page loop of `parse_kaspi_pdf` |
| `Analytics` | `analytics.dfy` | the non-printing functions of `analytics.py` |
| `Classifier` | `classifier.dfy` | `classifier.py`'s `classify_transfers` |

Each Python record dict becomes a `Transaction` value. Amounts are exact
rationals (`real`). The configuration module is not part of this model. Its
regular expressions and keyword lists become fields of a `Config` value, so
every result is proved for every configuration:

- `DATE_START_RE` is a predicate.
- `TX_HEAD_RE` is a partial function that returns the named groups.
- Each `NOISE_PATTERNS` substitution is a string function.
- Each `CATEGORIES` pattern is a string predicate.
- `lower`, `upper` and `title` are character maps.

Code that works step by step stays imperative:

- The page loops are `method`s with `while` or `for` loops. Each is proved equal
  to a recursive specification function, and the properties are proved about
  that function.
- The in-place passes over the record list work on an `array<Transaction>`.
- The dictionary accumulations are loops over a `map`, proved equal to a fold.

### Behaviour the model records

The model follows the code:

- `strip_footer` cuts at the first listed marker that occurs anywhere in the
  text, not at the earliest position of any marker
  (`Cleaner.StripFooterListOrder`).
- `strip_footer` is not idempotent, so `clean_description` is not idempotent
  either (`Cleaner.StripFooterNotIdempotent`, `Cleaner.CleanNotIdempotent`).
  Only the final whitespace step is idempotent (`Strings.SquashIdempotent`).
- `_to_decimal` can fail. `Decimal` rejects strings such as `"1.2.3"` or `"-"`.
- The Freedom and legacy parsers do not guard that `Decimal` call or `strptime`.
  Either failure aborts the whole document, which the model shows as an `Err`
  outcome. The Kaspi loop catches exceptions per row, and there the failure is
  a skipped row.
- `_parse_amount` deletes the typographic minus `−`, so `"−2 880,00 ₸"` reads as
  +2880.00 (`KaspiParser.TypographicMinusDropped`).
- A record's direction is not always a function of the sign of its amount:
  - the legacy parser always writes `expense`;
  - `classifier.classify_transfers` overwrites the direction of a transfer with
    `transfer`.
- The Kaspi header loop uses an `elif` chain, so a cell that holds both `дата`
  and `сумм` only sets the date column. A header whose every amount cell also
  mentions the date does not change the amount column, which stays unset if no
  earlier header set it
  (`KaspiParser.AmountHiddenByDate`).
- The adaptive limit is the spending itself, reduced by the cut and then
  rounded. So once the cut is worth half a unit or more, the status is always
  `exceeded` (`Analytics.ExceededOnceCutCounts`).

## Model

| member | source | states |
|---|---|---|
| Cleaner.StripFooter | cleaner.py:12-21 | the result is always a prefix of the text |
| Cleaner.StripFooterUnchanged | cleaner.py:16-21 | the text comes back unchanged exactly when it is empty or no marker occurs in its lower-cased copy |
| Cleaner.StripFooterListOrder | cleaner.py:17-20 | the text is cut at the first occurrence of the first LISTED marker that occurs, even when a later marker occurs earlier |
| Cleaner.StripFooterCaseBlind | cleaner.py:16-18 | two texts with the same lower-cased form are cut at the same length |
| Cleaner.UpperMarkerNeverMatches | cleaner.py:16-18 | a marker that holds a character lower-casing changes never matches, so the search is case-blind only for lower-case markers |
| Cleaner.StripFooterNotIdempotent | cleaner.py:17-20 | with markers `a`, `b`: `"b..a"` becomes `"b.."`, which becomes `""` |
| Cleaner.ApplyNoiseAppend | cleaner.py:33-34 | noise patterns apply one after another in list order |
| Cleaner.CleanDescription | cleaner.py:24-36 | the loop computes footer strip, then the noise patterns in order, then collapse and strip; the result is in normal form |
| Cleaner.CleanIsNormal | cleaner.py:36 | every cleaned description has no leading or trailing whitespace, and each inner whitespace run is one space |
| Cleaner.CleanWithoutFooter | cleaner.py:31-36 | with no noise patterns and no footer, cleaning is the whitespace step alone |
| Cleaner.CleanNotIdempotent | cleaner.py:24-36 | cleaning twice can differ from cleaning once |
| Strings.SquashIdempotent | cleaner.py:36 | the collapse-and-strip step is idempotent |
| Strings.SquashOfNormal | cleaner.py:36 | a string already in normal form is left alone by the whitespace step |
| Strings.SquashKeepsContent | cleaner.py:36 | the whitespace step keeps every non-whitespace character, in order |
| Strings.StripSpec | kaspi_parser.py:111 | `strip` keeps the middle between a whitespace-only head and tail, and that middle neither starts nor ends with whitespace |
| LineMachine.ParsePage | freedom_parser.py:47-84 | the two-state loop with `flush` yields exactly the block outcome of the lines |
| LineMachine.ResumeDateLine | freedom_parser.py:70-77 | a date-start line first closes the open record with its description cleaned; then it opens the decoded head, or no record when the head does not match, and a raising decoder aborts |
| LineMachine.ResumeOtherLine | freedom_parser.py:79-81 | any other line is appended after a space to the open record's description, and is dropped when no record is open |
| LineMachine.BlocksAreHeads | freedom_parser.py:58-84 | a page yields one record per date-start line whose head decodes, in line order; each record is its head with only the description replaced, and that description is normal |
| LineMachine.BlocksFailIff | freedom_parser.py:72-76 | a page fails exactly when some date-start line's decoder raises, and then with the error of the first such line |
| LineMachine.HeadsDecoded | freedom_parser.py:72-76 | every head is the decoding of some date-start line |
| LineMachine.PagesAppend | freedom_parser.py:31-38 | no state carries across pages: the records of `a + b` are those of `a` followed by those of `b` |
| LineMachine.ParsePages | freedom_parser.py:28-38 | the page loop with `extend` yields the pages' outcomes concatenated, and stops at the first failing page |
| LineMachine.PagesFromHeads | freedom_parser.py:31-38 | every record of a document has a normal description and comes from a decoded head line of one of its pages |
| FreedomParser.NormalizeDecimal | freedom_parser.py:139-145 | the string handed to `Decimal` is non-empty and holds only digits, points and minus signs |
| FreedomParser.ToDecimal | freedom_parser.py:131-145 | the only error is `Decimal` rejecting the normalised string of this value |
| FreedomParser.ToDecimalRoundTrip | freedom_parser.py:139-145 | an amount printed with an optional `-` or `−`, spaces grouping the whole part, a decimal comma and any decimals converts to its exact value |
| FreedomParser.ToDecimalThousands | freedom_parser.py:140-141 | when both a comma and a point occur, the commas are dropped as thousands separators |
| FreedomParser.ToDecimalOfNothing | freedom_parser.py:144-145 | a value with no digit, point, comma or minus converts to 0 |
| FreedomParser.ToDecimalTwoPoints | freedom_parser.py:144-145 | a value with two decimal points is an error |
| FreedomParser.ToDecimalGrouped | freedom_parser.py:136 | `'1 234,56'` converts to 1234.56 |
| FreedomParser.ToDecimalNegative | freedom_parser.py:137 | `'-500,00'` converts to -500.00 |
| FreedomParser.ToDecimalUnicodeMinus | freedom_parser.py:139 | `'−500,00'` converts to -500.00 |
| FreedomParser.ToDecimalSeparators | freedom_parser.py:140-141 | `'1,234.56'` converts to 1234.56 |
| Decimals.RejectedLiterals | freedom_parser.py:145 | `Decimal` rejects `"1.2.3"`, `"-"`, `""` and `"."` |
| Decimals.PlainLiteral | freedom_parser.py:145 | `Decimal` reads `digits.digits` as its exact value |
| Decimals.NegativeLiteral | freedom_parser.py:145 | `Decimal` reads `-digits.digits` as the negated value |
| Records.DirectionOf | freedom_parser.py:110-114 | the direction is expense, income or neutral exactly when the amount is negative, positive or zero |
| Records.Capitalize | freedom_parser.py:116 | `capitalize` title-cases the first character, lower-cases the rest and keeps the length |
| FreedomParser.OperationName | freedom_parser.py:116-118 | the capitalised operation, or `Покупка` when it is not a known operation |
| FreedomParser.FreedomHead | freedom_parser.py:98-128 | it fails exactly when the date does not parse or the amount does not convert, with a bad date reported first; on success the amount has the magnitude of the converted value and is negative exactly when the raw amount starts with a minus; direction follows the sign; currency, operation and description come from the match; there is no transfer type and no source |
| FreedomParser.ParseHeadLine | freedom_parser.py:87-96 | `None` exactly when the head pattern does not match; otherwise the head decoder's record or error |
| FreedomParser.ImpossibleDateRaises | freedom_parser.py:94-98 | a matching line with an impossible date raises and does not return `None` |
| FreedomParser.ParseFreedomPdf | freedom_parser.py:22-44 | the page machine over all pages, then `source` set to `freedom` on every record |
| FreedomParser.FreedomRecords | freedom_parser.py:41-42 | every Freedom record is well formed, tagged `freedom` and has a normal description |
| Dates.LongRoundTrip | freedom_parser.py:98 | a valid date formatted as `%d.%m.%Y` parses back to itself |
| Dates.LongParsedIsFormatted | freedom_parser.py:98 | every string `%d.%m.%Y` accepts is the formatting of the date it gives |
| Dates.LongExample | freedom_parser.py:92 | `17.12.2025` is 17 December 2025 |
| Dates.MonthPastDecember | freedom_parser.py:98 | month 13 is rejected |
| Dates.CommonYearLeapDay | freedom_parser.py:98 | 29 February of a common year is rejected |
| Dates.ShortYearUnderLongFormat | freedom_parser.py:98 | a two-digit year does not satisfy `%Y` |
| Dates.ShortRoundTrip | kaspi_parser.py:47 | a date in 1969-2068 formatted as `%d.%m.%y` parses back to itself |
| Dates.ShortParsedIsFormatted | kaspi_parser.py:47 | every string `%d.%m.%y` accepts is the formatting of the date it gives |
| Dates.ShortExamples | kaspi_parser.py:47 | `17.12.25` is in 2025 and `01.01.70` is in 1970 |
| LegacyParser.LegacyHead | parser.py:56-80 | it fails exactly when the date does not parse or the amount does not convert, with a bad date reported first; a raw leading minus makes the amount non-positive; the direction is always expense |
| LegacyParser.LegacyAgreesWithFreedom | parser.py:61-80 | the legacy and Freedom decoders fail together with the same error; otherwise they differ only in amount and direction, the amounts share a magnitude, and they are equal when the raw amount has a minus or the value is not negative |
| LegacyParser.SignDivergence | parser.py:63-66 | a raw amount with no leading minus and a negative value stays negative in the legacy parser, and becomes a positive income in the Freedom parser |
| LegacyParser.LegacyHeadLine | parser.py:56-59 | `None` exactly when the head pattern does not match |
| LegacyParser.ParsePdf | parser.py:15-27 | the same page machine with the legacy decoder, pages in order |
| LegacyParser.LegacyRecords | parser.py:72-80 | every legacy record is an expense with a valid date, a known operation or `Покупка`, no transfer type, no source and a normal description |
| KaspiParser.ParseDate | kaspi_parser.py:42-49 | a date it returns is valid and within the `%y` pivot range |
| KaspiParser.ParseDateRoundTrip | kaspi_parser.py:42-49 | a printed `DD.MM.YY` date parses back to itself |
| KaspiParser.NormalizeAmount | kaspi_parser.py:58-60 | the string handed to `Decimal` is non-empty and holds only digits, points, `-` and `+` |
| KaspiParser.ParseAmountOfNothing | kaspi_parser.py:56-58 | a value with no digit, point, comma or sign reads as 0 |
| KaspiParser.ParseAmountRoundTrip | kaspi_parser.py:52-60 | an amount printed with an optional `-` or `+`, grouped digits, a decimal comma and the tenge sign reads as its exact value |
| KaspiParser.TypographicMinusDropped | kaspi_parser.py:58-59 | a typographic minus is deleted, so the amount reads as positive |
| KaspiParser.ParseAmountNegativeExample | kaspi_parser.py:55 | `-2 880,00 ₸` reads as -2880.00 |
| KaspiParser.ParseAmountPositiveExample | kaspi_parser.py:56 | `+3 000,00 ₸` reads as 3000.00 |
| KaspiParser.NormalizeTrims | kaspi_parser.py:111 | every normalised cell is trimmed, and a missing cell becomes `""` |
| KaspiParser.HeaderIff | kaspi_parser.py:63-72 | a row is a header exactly when each of `дата`, `сумм` and `операц` occurs in some lower-cased cell |
| KaspiParser.KeyInJoined | kaspi_parser.py:67-71 | a keyword without spaces occurs in the joined cells exactly when it occurs in one cell |
| KaspiParser.DateCellPasses | kaspi_parser.py:75-81 | a row whose first cell holds a parsable date passes the transaction-row test |
| KaspiParser.RoleOf | kaspi_parser.py:117-125 | the `elif` priority date, amount, operation, details: a cell takes a role exactly when it holds that role's keyword and none of the earlier ones, and no role when it holds none of the four |
| KaspiParser.LearnSpec | kaspi_parser.py:116-125 | after a header, each column index is the last cell taking that role; a role that no cell takes keeps its earlier index |
| KaspiParser.HeaderFixesDate | kaspi_parser.py:114-119 | a header always fixes the date column, at a cell that holds `дата` |
| KaspiParser.AmountHiddenByDate | kaspi_parser.py:118-121 | when every cell holding `сумм` also holds `дата`, the amount column is not learnt |
| KaspiParser.LearnColumns | kaspi_parser.py:116-125 | the cell loop computes the header mapping |
| KaspiParser.DecodeRow | kaspi_parser.py:136-166 | a record is produced exactly when the indices are in range and the date and amount parse; it has that date and amount, the capitalised operation, the cleaned details or `""`, currency KZT, source kaspi and no transfer type |
| KaspiParser.RowRoundTrip | kaspi_parser.py:136-160 | a row holding a printed date and a printed amount decodes to that date and signed value, with the direction of its sign |
| KaspiParser.Step | kaspi_parser.py:109-166 | one row adds at most one record; a header sets the columns to what the header loop learns from it and adds none; a non-header row with the three columns known, a date-like first cell and a decodable row adds exactly its decoded record, and only such a row adds one |
| KaspiParser.DecodedAppend | kaspi_parser.py:109-162 | the records decoded from two stretches of rows are those of the first, then those of the second |
| KaspiParser.DecodedSkipsFailing | kaspi_parser.py:137-166 | a row that fails to decode adds nothing, and the rows after it give the same records as without it |
| KaspiParser.RunWithoutHeaders | kaspi_parser.py:109-162 | with the columns known and no header among the rows, the scan keeps the columns and appends exactly the decoded records of the rows, in row order |
| KaspiParser.AfterHeader | kaspi_parser.py:114-162 | after a header that makes the columns known, the rows up to the next header give exactly their decoded records, in row order, past rows that fail |
| KaspiParser.LaterPagesDecoded | kaspi_parser.py:99-162 | once earlier pages leave the columns known, later pages without a header add exactly their decoded records after the earlier pages' records |
| KaspiParser.RunGrows | kaspi_parser.py:162 | records are only appended, at most one per row, and every added record is well formed |
| KaspiParser.NoHeaderNoRecords | kaspi_parser.py:128-130 | before any header, rows without a header change nothing |
| KaspiParser.PagesCarryColumns | kaspi_parser.py:99-109 | the columns learnt on earlier pages carry over to later pages |
| KaspiParser.KaspiRecords | kaspi_parser.py:147-162 | a statement has no more records than rows, and every record is well formed |
| KaspiParser.ParseKaspiPdf | kaspi_parser.py:87-171 | the page and row loops with the four index variables compute the scan over all rows, page after page |
| Analytics.ClassifyOne | analytics.py:47-58 | only the transfer type of a record can change |
| Analytics.ClassifyOneSpec | analytics.py:33-58 | non-transfers are untouched; a transfer is `self` exactly when a self keyword matches without regard to case, `family` exactly when none does but a family keyword does, and otherwise `other` |
| Analytics.ClassifyIdempotent | analytics.py:47-58 | classifying twice is classifying once |
| Analytics.ClassifyTransfers | analytics.py:42-60 | in place, each element is its classification and the length and order are unchanged |
| Analytics.FilterSelfTransfers | analytics.py:63-70 | a record is kept exactly when it is not a self transfer |
| Analytics.FilterAppend | analytics.py:67-70 | the filter works record by record, so order is kept |
| Analytics.FilterKeepsOthers | analytics.py:67-70 | a list without self transfers comes back unchanged |
| Analytics.FilterIdempotent | analytics.py:67-70 | filtering twice is filtering once |
| Analytics.CategoryFromFirst | analytics.py:81-91 | the chosen category is the first entry, in list order, that matches and is not named `Прочее`; without one it is `Прочее` |
| Analytics.CategoryFor | analytics.py:82-91 | the two loops with `break` pick the category of the upper-cased description |
| Analytics.CategorizeTransactions | analytics.py:77-95 | in place, each record gets its category and nothing else changes |
| Analytics.ExpenseSum | analytics.py:109-110 | total expense is never negative |
| Analytics.CalculateTotals | analytics.py:102-116 | income sums the amounts of income records, expense sums the absolute amounts of expense records, and net is their difference |
| Analytics.TotalsIgnoreOthers | analytics.py:106-110 | records that are neither income nor expense add nothing |
| Analytics.NetOfSignedRecords | analytics.py:102-116 | when directions follow the signs, income is not negative and net is the plain sum of all amounts |
| Analytics.TallySpec | analytics.py:119-128 | a category is a key exactly when some kept record has it, and its value is the sum of those records' absolute amounts |
| Analytics.ExpensesByCategory | analytics.py:119-128 | the loop over the `defaultdict` computes the per-category expense tally, with `Прочее` for a missing category |
| Analytics.CategoriesAddUp | analytics.py:106-128 | the per-category expense values add up to the total expense |
| Analytics.SmallExpensesInsight | analytics.py:235-251 | the loop computes the tally of expense records with an absolute amount up to the threshold |
| Analytics.CategoryTotalMonotone | analytics.py:244-249 | a stricter filter gives a smaller or equal category sum |
| Analytics.SmallWithinCategory | analytics.py:244-251 | each small-expense category is an expense category, with a value no larger |
| Analytics.RoundHalfEven | analytics.py:144-146 | `quantize(Decimal("1"))` rounds to within one half, and a tie goes to the even integer |
| Analytics.RoundMonotone | analytics.py:144-146 | rounding preserves order |
| Analytics.LimitFor | analytics.py:144-160 | the limit is the spending times `(100 - cut) / 100`, rounded half to even; the entry keeps the spending, `remaining` is limit minus spent, and the status is `exceeded` exactly when nothing remains |
| Analytics.StatusBands | analytics.py:148-153 | `warning` means at least 80% of the limit and below it, and `ok` means below 80% |
| Analytics.ExceededOnceCutCounts | analytics.py:144-149 | once the cut is worth half a unit or more, the status is always `exceeded` |
| Analytics.AdaptiveCategoryLimits | analytics.py:135-162 | one entry per expense category, each the limit entry of that category's spending |
| Analytics.SavingMonotone | analytics.py:204-206 | a larger percentage never saves less, and 0% saves nothing |
| Analytics.SavingScenarios | analytics.py:193-208 | for each expense category, each requested percentage maps to the rounded saving |
| Analytics.CountsSpec | analytics.py:284-291 | the counter holds each upper-cased expense description with its number of occurrences |
| Analytics.RecurringPayments | analytics.py:277-297 | exactly the counted descriptions that reach the minimum, with their counts |
| Analytics.RecurringSpec | analytics.py:293-297 | a description is recurring exactly when it occurs at least once and at least the minimum number of times |
| Classifier.LegacyClassifyOne | classifier.py:18-32 | only the direction and transfer type of a record can change |
| Classifier.LegacyClassifySpec | classifier.py:18-32 | records whose operation is not exactly `Перевод` are untouched; a transfer gets direction `transfer` and is `self`, `family` or `other` by keywords matched as written, in that order |
| Classifier.ClassifyTransfers | classifier.py:11-32 | in place, returning nothing, each element is its classification and the length and order are unchanged |
| Classifier.ExactHitIsCaselessHit | classifier.py:27-29 | a keyword that occurs as written also occurs after both sides are lower-cased |
| Classifier.LegacyAgreesOnClearCases | classifier.py:27-32 | a legacy `self` is an analytics `self`, and an analytics `other` is a legacy `other` |
| Classifier.ClassifiedTransfersNotTotalled | classifier.py:25 | after the legacy classification, transfers count neither as income nor as expense |

## Left out

- PDF extraction (`pdfplumber`) is left out. A text page is its list of trimmed, non-empty lines. A table page is a list of rows of optional cells, and a page without a table is an empty list of rows.
- Logging in the Kaspi parser is left out. It has no effect on the result.
- The configuration module is not part of this model. Its regular expressions, category patterns and keyword lists are fields of `Config`, and no regular-expression engine is modelled. The one exception is the fixed `\d{2}\.\d{2}\.\d{2}` prefix test, which is modelled with `\d` read as an ASCII digit.
- `str.lower`, `str.upper` and the title case `str.capitalize` gives its first character are per-character maps. Unicode case rules that change length are not modelled.
- FreedomParser.FreedomHead: `%d.%m.%Y` is modelled as fixed width. `strptime` also accepts one-digit day and month fields, and those are not modelled.
- KaspiParser.ParseDate: `%d.%m.%y` is modelled as fixed width, for the same reason.
- Analytics.AdaptiveCategoryLimits, Analytics.SavingScenarios, Analytics.SmallExpensesInsight, Analytics.RecurringPayments: the Python default arguments (`cut_percent=10`, `percents=[10, 20]`, `threshold=2000`, `min_count=2`) are not modelled; the caller always passes these values.
- Analytics.ExpensesByCategory, Analytics.AdaptiveCategoryLimits, Analytics.SavingScenarios: their results are Dafny `map`s, so the insertion order of the Python dicts they build is not modelled; only keys and values are.
- `Decimal` arithmetic is exact here. Its 28-digit context precision and the exponent form of `quantize` results are not modelled.
- `parser._to_decimal` is the same transform as `freedom_parser._to_decimal`. The legacy parser therefore uses `FreedomParser.ToDecimal`.
- Record dicts are values. Aliasing between list elements is not modelled.
- `analytics.classify_transfers` and `categorize_transactions` return the same list they were given. The methods change the array in place and return nothing.
- A record's category is `None` until it is categorised, and `None` stands for the missing `category` key. A key present with the value `None`, for which `.get` would give `None` instead of `Прочее`, is not modelled.
- The `print_*` functions of `analytics.py` are left out as display code. So are `app.py` (the web UI), `main.py` and `test.py`, which are script drivers doing file I/O and printing.
