/** The page state machine shared by the Freedom parser (`freedom_parser.py`)
    and the legacy parser (`parser.py`): a line the date-start pattern matches
    closes the open operation and opens a new one from its decoded head; any
    other line is appended, after a space, to the open operation's
    description, or dropped when none is open; the open operation is closed at
    the end of the page.  Closing an operation cleans its description.

    The two parsers differ only in how they decode a head line, so the machine
    takes the decoder as a parameter: `Ok(None)` is a line `TX_HEAD_RE` does
    not match, `Err` an exception escaping the decoder, which ends the whole
    parse. */
module LineMachine {
  import opened Wrappers
  import opened Strings
  import opened Records
  import opened Cleaner

  type Outcome = Result<seq<Transaction>, ParseError>

  /** `xs` in front of a successful outcome; an error is passed on. */
  function Prepend(xs: seq<Transaction>, r: Outcome): (o: Outcome)
    ensures o.Err? <==> r.Err?
    ensures r.Err? ==> o == r
  {
    match r
    case Ok(ys) => Ok(xs + ys)
    case Err(e) => Err(e)
  }

  lemma PrependNil(r: Outcome)
    ensures Prepend([], r) == r
  {
    if r.Ok? {
      assert [] + r.value == r.value;
    }
  }

  lemma PrependPrepend(xs: seq<Transaction>, ys: seq<Transaction>, r: Outcome)
    ensures Prepend(xs, Prepend(ys, r)) == Prepend(xs + ys, r)
  {
    if r.Ok? {
      assert xs + (ys + r.value) == (xs + ys) + r.value;
    }
  }

  /** The number of lines at the front of `lines` the date-start pattern does
      not match: the continuation of an operation opened just before them. */
  function ContLength(cfg: Config, lines: seq<string>): (n: nat)
    ensures n <= |lines|
    ensures forall i :: 0 <= i < n ==> !cfg.dateStart(lines[i])
    ensures n < |lines| ==> cfg.dateStart(lines[n])
  {
    if lines == [] || cfg.dateStart(lines[0]) then 0 else 1 + ContLength(cfg, lines[1..])
  }

  /** The text the `+= " " + line` appends leave behind: each line after a space. */
  function Spaced(lines: seq<string>): string {
    if lines == [] then "" else " " + lines[0] + Spaced(lines[1..])
  }

  /** An operation closed after its continuation `cont`. */
  function Finish(cfg: Config, head: Transaction, cont: seq<string>): Transaction {
    head.(description := Clean(cfg, head.description + Spaced(cont)))
  }

  /** The records of a page, block by block: each date-start line whose head
      decodes gives one record, whose description is the head's details
      followed by the lines up to the next date-start line.  Lines before the
      first date-start line, and the continuation of a line the head pattern
      does not match, give nothing.  The first decoder error is the outcome. */
  function Blocks(cfg: Config, decode: string -> Result<Option<Transaction>, ParseError>, lines: seq<string>): Outcome
    decreases |lines|
  {
    if lines == [] then Ok([])
    else if !cfg.dateStart(lines[0]) then Blocks(cfg, decode, lines[1..])
    else match decode(lines[0])
      case Err(e) => Err(e)
      case Ok(None) => Blocks(cfg, decode, lines[1..])
      case Ok(Some(h)) =>
        var rest := lines[1..];
        var n := ContLength(cfg, rest);
        Prepend([Finish(cfg, h, rest[..n])], Blocks(cfg, decode, rest[n..]))
  }

  /** What the machine yields from here on, given the records already closed,
      the open operation, and the lines still to read. */
  function Resume(cfg: Config, decode: string -> Result<Option<Transaction>, ParseError>,
                  done: seq<Transaction>, open: Option<Transaction>, rest: seq<string>): Outcome
  {
    match open
    case None => Prepend(done, Blocks(cfg, decode, rest))
    case Some(tx) =>
      var n := ContLength(cfg, rest);
      Prepend(done + [Finish(cfg, tx, rest[..n])], Blocks(cfg, decode, rest[n..]))
  }

  /** `flush()` then the decoded head: the state after a date-start line. */
  lemma ResumeDateLine(cfg: Config, decode: string -> Result<Option<Transaction>, ParseError>,
                       done: seq<Transaction>, open: Option<Transaction>, rest: seq<string>)
    requires rest != [] && cfg.dateStart(rest[0])
    ensures var closed := if open.Some? then done + [open.value.(description := Clean(cfg, open.value.description))] else done;
      match decode(rest[0])
      case Err(e) => Resume(cfg, decode, done, open, rest) == Err(e)
      case Ok(head) => Resume(cfg, decode, done, open, rest) == Resume(cfg, decode, closed, head, rest[1..])
  {
    var closed := if open.Some? then done + [open.value.(description := Clean(cfg, open.value.description))] else done;
    assert Resume(cfg, decode, done, open, rest) == Prepend(closed, Blocks(cfg, decode, rest)) by {
      if open.Some? {
        assert rest[..0] == [] && rest[0..] == rest;
        assert open.value.description + Spaced([]) == open.value.description;
      }
    }
    match decode(rest[0])
    case Err(e) =>
    case Ok(None) =>
    case Ok(Some(h)) =>
      var n := ContLength(cfg, rest[1..]);
      PrependPrepend(closed, [Finish(cfg, h, rest[1..][..n])], Blocks(cfg, decode, rest[1..][n..]));
  }

  /** The append `description += " " + line` on a continuation line. */
  lemma ResumeOtherLine(cfg: Config, decode: string -> Result<Option<Transaction>, ParseError>,
                        done: seq<Transaction>, open: Option<Transaction>, rest: seq<string>)
    requires rest != [] && !cfg.dateStart(rest[0])
    ensures var open' := if open.Some? then Some(open.value.(description := open.value.description + " " + rest[0])) else None;
      Resume(cfg, decode, done, open, rest) == Resume(cfg, decode, done, open', rest[1..])
  {
    if open.Some? {
      var tx := open.value;
      var n := ContLength(cfg, rest);
      assert rest[..n] == [rest[0]] + rest[1..][..n - 1];
      assert rest[n..] == rest[1..][n - 1..];
      assert [rest[0]] + rest[1..][..n - 1] != [];
      var c := rest[1..][..n - 1];
      assert Spaced([rest[0]] + c) == " " + rest[0] + Spaced(c) by {
        assert ([rest[0]] + c)[1..] == c;
      }
      assert tx.description + Spaced([rest[0]] + c) == (tx.description + " " + rest[0]) + Spaced(c);
    }
  }

  /** `_parse_page(lines)`: the two-state machine with a flush before every
      head and at the end, and `Err` for an exception from the decoder. */
  method ParsePage(cfg: Config, decode: string -> Result<Option<Transaction>, ParseError>, lines: seq<string>)
    returns (r: Outcome)
    ensures r == Blocks(cfg, decode, lines)
  {
    var done: seq<Transaction> := [];
    var open: Option<Transaction> := None;
    assert lines[0..] == lines;
    PrependNil(Blocks(cfg, decode, lines));
    for i := 0 to |lines|
      invariant Blocks(cfg, decode, lines) == Resume(cfg, decode, done, open, lines[i..])
    {
      var line := lines[i];
      assert lines[i..][0] == line && lines[i..][1..] == lines[i + 1..];
      if cfg.dateStart(line) {
        ResumeDateLine(cfg, decode, done, open, lines[i..]);
        if open.Some? {
          done := done + [open.value.(description := Clean(cfg, open.value.description))];
          open := None;
        }
        var head := decode(line);
        if head.Err? {
          return Err(head.error);
        }
        open := head.value;
      } else {
        ResumeOtherLine(cfg, decode, done, open, lines[i..]);
        if open.Some? {
          open := Some(open.value.(description := open.value.description + " " + line));
        }
      }
    }
    assert lines[|lines|..] == [];
    if open.Some? {
      assert open.value.description + Spaced([]) == open.value.description;
      done := done + [open.value.(description := Clean(cfg, open.value.description))];
    }
    assert Blocks(cfg, decode, lines) == Prepend(done, Ok([]));
    assert done + [] == done;
    return Ok(done);
  }

  // ---------------------------------------------------------------------------
  // Properties of a page
  // ---------------------------------------------------------------------------

  /** The decoded heads of a page, in line order. */
  function Heads(cfg: Config, decode: string -> Result<Option<Transaction>, ParseError>, lines: seq<string>): seq<Transaction> {
    if lines == [] then []
    else
      var h := if cfg.dateStart(lines[0]) && decode(lines[0]).Ok? && decode(lines[0]).value.Some?
               then [decode(lines[0]).value.value] else [];
      h + Heads(cfg, decode, lines[1..])
  }

  lemma {:induction false} HeadsOfContinuation(cfg: Config, decode: string -> Result<Option<Transaction>, ParseError>, lines: seq<string>, n: nat)
    requires n <= |lines| && forall i :: 0 <= i < n ==> !cfg.dateStart(lines[i])
    ensures Heads(cfg, decode, lines) == Heads(cfg, decode, lines[n..])
  {
    if n > 0 {
      assert lines[1..][n - 1..] == lines[n..];
      HeadsOfContinuation(cfg, decode, lines[1..], n - 1);
    }
  }

  /** `xs` are the heads `hs`, one for one, each with a cleaned description. */
  predicate MatchesHeads(xs: seq<Transaction>, hs: seq<Transaction>) {
    && |xs| == |hs|
    && forall k :: 0 <= k < |xs| ==> xs[k] == hs[k].(description := xs[k].description) && IsNormal(xs[k].description)
  }

  lemma MatchesCons(x: Transaction, h: Transaction, ys: seq<Transaction>, hs: seq<Transaction>)
    requires MatchesHeads(ys, hs) && x == h.(description := x.description) && IsNormal(x.description)
    ensures MatchesHeads([x] + ys, [h] + hs)
  {
    var xs := [x] + ys;
    forall k | 0 <= k < |xs|
      ensures xs[k] == ([h] + hs)[k].(description := xs[k].description) && IsNormal(xs[k].description)
    {
      if k > 0 {
        assert xs[k] == ys[k - 1] && ([h] + hs)[k] == hs[k - 1];
      }
    }
  }

  /** A page that parses yields one record per decoded head, in line order:
      each record is its head with the description replaced by a cleaned one. */
  lemma {:induction false} BlocksAreHeads(cfg: Config, decode: string -> Result<Option<Transaction>, ParseError>, lines: seq<string>)
    requires Blocks(cfg, decode, lines).Ok?
    ensures MatchesHeads(Blocks(cfg, decode, lines).value, Heads(cfg, decode, lines))
    decreases |lines|
  {
    if lines != [] {
      if !cfg.dateStart(lines[0]) || decode(lines[0]) == Ok(None) {
        BlocksAreHeads(cfg, decode, lines[1..]);
      } else {
        var h := decode(lines[0]).value.value;
        var rest := lines[1..];
        var n := ContLength(cfg, rest);
        BlocksAreHeads(cfg, decode, rest[n..]);
        HeadsOfContinuation(cfg, decode, rest, n);
        CleanIsNormal(cfg, h.description + Spaced(rest[..n]));
        MatchesCons(Finish(cfg, h, rest[..n]), h, Blocks(cfg, decode, rest[n..]).value, Heads(cfg, decode, rest[n..]));
      }
    }
  }

  /** A page fails exactly when some date-start line's decoder raises, and then
      with the error of the first such line. */
  lemma {:induction false} BlocksFailIff(cfg: Config, decode: string -> Result<Option<Transaction>, ParseError>, lines: seq<string>)
    ensures Blocks(cfg, decode, lines).Err?
      <==> exists i :: 0 <= i < |lines| && cfg.dateStart(lines[i]) && decode(lines[i]).Err?
    ensures Blocks(cfg, decode, lines).Err? ==>
      exists i :: && 0 <= i < |lines| && cfg.dateStart(lines[i])
                  && decode(lines[i]) == Err(Blocks(cfg, decode, lines).error)
                  && forall k :: 0 <= k < i && cfg.dateStart(lines[k]) ==> decode(lines[k]).Ok?
    decreases |lines|
  {
    if lines != [] {
      if !cfg.dateStart(lines[0]) || decode(lines[0]) == Ok(None) {
        BlocksFailIff(cfg, decode, lines[1..]);
        ShiftBy(cfg, decode, lines, 1);
      } else if decode(lines[0]).Ok? {
        var m := HeadSpan(cfg, decode, lines);
        BlocksFailIff(cfg, decode, lines[m..]);
        ShiftBy(cfg, decode, lines, m);
      }
    }
  }

  /** A line that opens an operation, with its continuation: the outcome from
      there on is that of the lines after them, up to the prepended record. */
  lemma HeadSpan(cfg: Config, decode: string -> Result<Option<Transaction>, ParseError>, lines: seq<string>)
    returns (m: nat)
    requires lines != [] && cfg.dateStart(lines[0]) && decode(lines[0]).Ok? && decode(lines[0]).value.Some?
    ensures 0 < m <= |lines| && m == 1 + ContLength(cfg, lines[1..])
    ensures forall i :: 0 < i < m ==> !cfg.dateStart(lines[i])
    ensures Blocks(cfg, decode, lines).Err? <==> Blocks(cfg, decode, lines[m..]).Err?
    ensures Blocks(cfg, decode, lines).Err? ==> Blocks(cfg, decode, lines) == Blocks(cfg, decode, lines[m..])
  {
    var rest := lines[1..];
    var n := ContLength(cfg, rest);
    m := 1 + n;
    assert lines[m..] == rest[n..];
    forall i | 0 < i < m ensures !cfg.dateStart(lines[i]) {
      assert lines[i] == rest[i - 1];
    }
  }

  /** Lifts the failure statements of `lines[m..]` to `lines` when the first
      `m` lines hold no failing head and do not change the outcome's error. */
  lemma ShiftBy(cfg: Config, decode: string -> Result<Option<Transaction>, ParseError>, lines: seq<string>, m: nat)
    requires 0 < m <= |lines|
    requires forall i :: 0 <= i < m && cfg.dateStart(lines[i]) ==> decode(lines[i]).Ok?
    requires Blocks(cfg, decode, lines).Err? <==> Blocks(cfg, decode, lines[m..]).Err?
    requires Blocks(cfg, decode, lines).Err? ==> Blocks(cfg, decode, lines) == Blocks(cfg, decode, lines[m..])
    requires Blocks(cfg, decode, lines[m..]).Err?
      <==> exists i :: 0 <= i < |lines[m..]| && cfg.dateStart(lines[m..][i]) && decode(lines[m..][i]).Err?
    requires Blocks(cfg, decode, lines[m..]).Err? ==>
      exists i :: && 0 <= i < |lines[m..]| && cfg.dateStart(lines[m..][i])
                  && decode(lines[m..][i]) == Err(Blocks(cfg, decode, lines[m..]).error)
                  && forall k :: 0 <= k < i && cfg.dateStart(lines[m..][k]) ==> decode(lines[m..][k]).Ok?
    ensures Blocks(cfg, decode, lines).Err?
      <==> exists i :: 0 <= i < |lines| && cfg.dateStart(lines[i]) && decode(lines[i]).Err?
    ensures Blocks(cfg, decode, lines).Err? ==>
      exists i :: && 0 <= i < |lines| && cfg.dateStart(lines[i])
                  && decode(lines[i]) == Err(Blocks(cfg, decode, lines).error)
                  && forall k :: 0 <= k < i && cfg.dateStart(lines[k]) ==> decode(lines[k]).Ok?
  {
    var tail := lines[m..];
    if exists i :: 0 <= i < |lines| && cfg.dateStart(lines[i]) && decode(lines[i]).Err? {
      var i :| 0 <= i < |lines| && cfg.dateStart(lines[i]) && decode(lines[i]).Err?;
      assert i >= m;
      assert tail[i - m] == lines[i];
    }
    if Blocks(cfg, decode, tail).Err? {
      var i :| && 0 <= i < |tail| && cfg.dateStart(tail[i])
               && decode(tail[i]) == Err(Blocks(cfg, decode, tail).error)
               && forall k :: 0 <= k < i && cfg.dateStart(tail[k]) ==> decode(tail[k]).Ok?;
      assert tail[i] == lines[m + i];
      forall k | 0 <= k < m + i && cfg.dateStart(lines[k]) ensures decode(lines[k]).Ok? {
        if k >= m {
          assert tail[k - m] == lines[k];
        }
      }
    }
  }

  /** Every decoded head comes from a date-start line of the page. */
  lemma {:induction false} HeadsDecoded(cfg: Config, decode: string -> Result<Option<Transaction>, ParseError>, lines: seq<string>, k: int)
    requires 0 <= k < |Heads(cfg, decode, lines)|
    ensures exists i :: 0 <= i < |lines| && cfg.dateStart(lines[i]) && decode(lines[i]) == Ok(Some(Heads(cfg, decode, lines)[k]))
  {
    var hs := Heads(cfg, decode, lines);
    var first := cfg.dateStart(lines[0]) && decode(lines[0]).Ok? && decode(lines[0]).value.Some?;
    if first && k == 0 {
      assert hs[0] == decode(lines[0]).value.value;
    } else {
      var k' := if first then k - 1 else k;
      assert hs[k] == Heads(cfg, decode, lines[1..])[k'];
      HeadsDecoded(cfg, decode, lines[1..], k');
      var i :| 0 <= i < |lines[1..]| && cfg.dateStart(lines[1..][i]) && decode(lines[1..][i]) == Ok(Some(Heads(cfg, decode, lines[1..])[k']));
      assert lines[1..][i] == lines[i + 1];
    }
  }

  // ---------------------------------------------------------------------------
  // Pages
  // ---------------------------------------------------------------------------

  /** The pages parsed one after another, each from a fresh state, their
      records concatenated in page order; the first failing page's error
      ends the parse. */
  function Pages(cfg: Config, decode: string -> Result<Option<Transaction>, ParseError>, pages: seq<seq<string>>): Outcome {
    if pages == [] then Ok([])
    else match Blocks(cfg, decode, pages[0])
      case Err(e) => Err(e)
      case Ok(xs) => Prepend(xs, Pages(cfg, decode, pages[1..]))
  }

  /** No state carries over a page boundary: the records of `a + b` are those
      of `a` followed by those of `b`. */
  lemma {:induction false} PagesAppend(cfg: Config, decode: string -> Result<Option<Transaction>, ParseError>, a: seq<seq<string>>, b: seq<seq<string>>)
    ensures Pages(cfg, decode, a + b) ==
      match Pages(cfg, decode, a)
      case Err(e) => Err(e)
      case Ok(xs) => Prepend(xs, Pages(cfg, decode, b))
    decreases |a|
  {
    if a == [] {
      assert a + b == b;
      if Pages(cfg, decode, b).Ok? {
        assert [] + Pages(cfg, decode, b).value == Pages(cfg, decode, b).value;
      }
    } else {
      assert (a + b)[0] == a[0] && (a + b)[1..] == a[1..] + b;
      PagesAppend(cfg, decode, a[1..], b);
      if Blocks(cfg, decode, a[0]).Ok? && Pages(cfg, decode, a[1..]).Ok? {
        PrependPrepend(Blocks(cfg, decode, a[0]).value, Pages(cfg, decode, a[1..]).value, Pages(cfg, decode, b));
      }
    }
  }

  /** The page loop: each page's records are appended in turn. */
  method ParsePages(cfg: Config, decode: string -> Result<Option<Transaction>, ParseError>, pages: seq<seq<string>>)
    returns (r: Outcome)
    ensures r == Pages(cfg, decode, pages)
  {
    var txs: seq<Transaction> := [];
    assert pages[0..] == pages;
    PrependNil(Pages(cfg, decode, pages));
    for p := 0 to |pages|
      invariant Pages(cfg, decode, pages) == Prepend(txs, Pages(cfg, decode, pages[p..]))
    {
      assert pages[p..][0] == pages[p] && pages[p..][1..] == pages[p + 1..];
      var page := ParsePage(cfg, decode, pages[p]);
      if page.Err? {
        return Err(page.error);
      }
      PrependPrepend(txs, page.value, Pages(cfg, decode, pages[p + 1..]));
      txs := txs + page.value;
    }
    assert pages[|pages|..] == [];
    assert txs + [] == txs;
    return Ok(txs);
  }

  /** `tx` is a decoded head of some date-start line of some page, up to its
      description. */
  predicate FromHead(cfg: Config, decode: string -> Result<Option<Transaction>, ParseError>, pages: seq<seq<string>>, tx: Transaction) {
    exists p, i :: && 0 <= p < |pages| && 0 <= i < |pages[p]| && cfg.dateStart(pages[p][i])
                   && decode(pages[p][i]).Ok? && decode(pages[p][i]).value.Some?
                   && decode(pages[p][i]).value.value == tx.(description := decode(pages[p][i]).value.value.description)
  }

  /** Every record of a successful parse is a decoded head with a cleaned
      description. */
  lemma {:induction false} PagesFromHeads(cfg: Config, decode: string -> Result<Option<Transaction>, ParseError>, pages: seq<seq<string>>)
    requires Pages(cfg, decode, pages).Ok?
    ensures forall tx :: tx in Pages(cfg, decode, pages).value ==>
      IsNormal(tx.description) && FromHead(cfg, decode, pages, tx)
  {
    if pages != [] {
      var xs := Blocks(cfg, decode, pages[0]).value;
      var ys := Pages(cfg, decode, pages[1..]).value;
      PagesFromHeads(cfg, decode, pages[1..]);
      BlocksAreHeads(cfg, decode, pages[0]);
      assert Pages(cfg, decode, pages).value == xs + ys;
      forall tx: Transaction | tx in xs + ys ensures IsNormal(tx.description) && FromHead(cfg, decode, pages, tx) {
        if tx in xs {
          var k :| 0 <= k < |xs| && xs[k] == tx;
          HeadsDecoded(cfg, decode, pages[0], k);
          var i :| 0 <= i < |pages[0]| && cfg.dateStart(pages[0][i]) && decode(pages[0][i]) == Ok(Some(Heads(cfg, decode, pages[0])[k]));
          assert decode(pages[0][i]).value.value == tx.(description := decode(pages[0][i]).value.value.description);
        } else {
          assert tx in ys;
          assert FromHead(cfg, decode, pages[1..], tx);
          var p, i :| && 0 <= p < |pages[1..]| && 0 <= i < |pages[1..][p]| && cfg.dateStart(pages[1..][p][i])
                      && decode(pages[1..][p][i]).Ok? && decode(pages[1..][p][i]).value.Some?
                      && decode(pages[1..][p][i]).value.value == tx.(description := decode(pages[1..][p][i]).value.value.description);
          assert pages[1..][p] == pages[p + 1];
        }
      }
    }
  }
}
