/** The analytics layer (`analytics.py`) over parsed records: transfer
    classification, the self-transfer filter, categorisation, totals,
    per-category sums, adaptive limits, saving scenarios, small expenses and
    recurring payments.  The list of records the source mutates in place is an
    array whose elements are replaced; the sums and counters the source
    accumulates in loops are methods proved equal to folds. */
module Analytics {
  import opened Wrappers
  import opened Strings
  import opened Records

  // ---------------------------------------------------------------------------
  // _contains_any, classify_transfers
  // ---------------------------------------------------------------------------

  /** `_contains_any(text, keywords)`: some keyword, lower-cased, occurs in the
      lower-cased text. */
  predicate ContainsAny(cfg: Config, text: string, keywords: seq<string>) {
    exists j :: 0 <= j < |keywords| && Contains(Lower(cfg, text), Lower(cfg, keywords[j]))
  }

  /** The `if`/`elif`/`else` of `classify_transfers`: self before family. */
  function TransferTypeOf(cfg: Config, description: string): TransferType {
    if ContainsAny(cfg, description, cfg.selfKeywords) then ToSelf
    else if ContainsAny(cfg, description, cfg.familyKeywords) then ToFamily
    else ToOther
  }

  /** The loop body of `classify_transfers` for one record. */
  function ClassifyOne(cfg: Config, tx: Transaction): (r: Transaction)
    ensures r.(transferType := tx.transferType) == tx
  {
    if tx.operation != TransferOperation then tx
    else tx.(transferType := Some(TransferTypeOf(cfg, tx.description)))
  }

  /** Only transfers are touched; a transfer is typed `self` exactly when a self
      keyword occurs ignoring case, `family` exactly when no self keyword but a
      family keyword does, and `other` otherwise. */
  lemma ClassifyOneSpec(cfg: Config, tx: Transaction)
    ensures tx.operation != TransferOperation ==> ClassifyOne(cfg, tx) == tx
    ensures tx.operation == TransferOperation ==>
      var t := ClassifyOne(cfg, tx).transferType;
      && (t == Some(ToSelf) <==> ContainsAny(cfg, tx.description, cfg.selfKeywords))
      && (t == Some(ToFamily) <==> !ContainsAny(cfg, tx.description, cfg.selfKeywords)
                                    && ContainsAny(cfg, tx.description, cfg.familyKeywords))
      && (t == Some(ToOther) <==> !ContainsAny(cfg, tx.description, cfg.selfKeywords)
                                   && !ContainsAny(cfg, tx.description, cfg.familyKeywords))
  {
  }

  /** Classifying twice is classifying once. */
  lemma ClassifyIdempotent(cfg: Config, tx: Transaction)
    ensures ClassifyOne(cfg, ClassifyOne(cfg, tx)) == ClassifyOne(cfg, tx)
  {
  }

  /** `classify_transfers(transactions)`: each record is classified in place;
      the length and the order of the list do not change. */
  method ClassifyTransfers(cfg: Config, a: array<Transaction>)
    modifies a
    ensures forall i :: 0 <= i < a.Length ==> a[i] == ClassifyOne(cfg, old(a[i]))
  {
    for i := 0 to a.Length
      invariant forall j :: 0 <= j < i ==> a[j] == ClassifyOne(cfg, old(a[j]))
      invariant forall j :: i <= j < a.Length ==> a[j] == old(a[j])
    {
      var tx := a[i];
      if tx.operation == TransferOperation {
        var kind;
        if ContainsAny(cfg, tx.description, cfg.selfKeywords) {
          kind := ToSelf;
        } else if ContainsAny(cfg, tx.description, cfg.familyKeywords) {
          kind := ToFamily;
        } else {
          kind := ToOther;
        }
        assert kind == TransferTypeOf(cfg, tx.description);
        a[i] := tx.(transferType := Some(kind));
      }
    }
  }

  // ---------------------------------------------------------------------------
  // filter_self_transfers
  // ---------------------------------------------------------------------------

  predicate IsSelfTransfer(tx: Transaction) {
    tx.transferType == Some(ToSelf)
  }

  /** `filter_self_transfers(transactions)`. */
  function FilterSelfTransfers(txs: seq<Transaction>): (r: seq<Transaction>)
    ensures |r| <= |txs|
    ensures forall tx :: tx in r <==> tx in txs && !IsSelfTransfer(tx)
  {
    if txs == [] then []
    else (if IsSelfTransfer(txs[0]) then [] else [txs[0]]) + FilterSelfTransfers(txs[1..])
  }

  /** The filter works record by record, so it keeps the order: filtering a
      concatenation concatenates the filtered parts. */
  lemma {:induction false} FilterAppend(a: seq<Transaction>, b: seq<Transaction>)
    ensures FilterSelfTransfers(a + b) == FilterSelfTransfers(a) + FilterSelfTransfers(b)
    decreases |a|
  {
    if a == [] {
      assert a + b == b;
    } else {
      assert (a + b)[0] == a[0];
      assert (a + b)[1..] == a[1..] + b;
      FilterAppend(a[1..], b);
    }
  }

  /** A list with no self transfer passes unchanged, so filtering twice is
      filtering once. */
  lemma {:induction false} FilterKeepsOthers(txs: seq<Transaction>)
    requires forall i :: 0 <= i < |txs| ==> !IsSelfTransfer(txs[i])
    ensures FilterSelfTransfers(txs) == txs
  {
    if txs != [] {
      FilterKeepsOthers(txs[1..]);
      assert [txs[0]] + txs[1..] == txs;
    }
  }

  lemma FilterIdempotent(txs: seq<Transaction>)
    ensures FilterSelfTransfers(FilterSelfTransfers(txs)) == FilterSelfTransfers(txs)
  {
    var r := FilterSelfTransfers(txs);
    assert forall i :: 0 <= i < |r| ==> r[i] in r;
    FilterKeepsOthers(r);
  }

  // ---------------------------------------------------------------------------
  // categorize_transactions
  // ---------------------------------------------------------------------------

  /** Some pattern of the list matches. */
  predicate AnyMatch(patterns: seq<string -> bool>, desc: string) {
    exists j :: 0 <= j < |patterns| && patterns[j](desc)
  }

  /** The category the nested loops settle on for an upper-cased description:
      a matching entry named `Прочее` leaves the category at `Прочее`, and the
      outer loop goes on. */
  function CategoryFrom(cats: seq<Category>, desc: string): string {
    if cats == [] then OtherCategory
    else if AnyMatch(cats[0].patterns, desc) && cats[0].name != OtherCategory then cats[0].name
    else CategoryFrom(cats[1..], desc)
  }

  /** The entry whose name is chosen is the first, in list order, that matches
      and is not named `Прочее`; without one the category is `Прочее`. */
  lemma {:induction false} CategoryFromFirst(cats: seq<Category>, desc: string)
    ensures var c := CategoryFrom(cats, desc);
      if exists j :: 0 <= j < |cats| && AnyMatch(cats[j].patterns, desc) && cats[j].name != OtherCategory
      then exists j :: && 0 <= j < |cats| && AnyMatch(cats[j].patterns, desc) && cats[j].name != OtherCategory
                       && c == cats[j].name
                       && forall i :: 0 <= i < j ==> !AnyMatch(cats[i].patterns, desc) || cats[i].name == OtherCategory
      else c == OtherCategory
  {
    if cats != [] {
      CategoryFromFirst(cats[1..], desc);
      if !(AnyMatch(cats[0].patterns, desc) && cats[0].name != OtherCategory) {
        if exists j :: 0 <= j < |cats| && AnyMatch(cats[j].patterns, desc) && cats[j].name != OtherCategory {
          var j :| 0 <= j < |cats| && AnyMatch(cats[j].patterns, desc) && cats[j].name != OtherCategory;
          assert cats[1..][j - 1] == cats[j];
          var j' :| && 0 <= j' < |cats[1..]| && AnyMatch(cats[1..][j'].patterns, desc)
                    && cats[1..][j'].name != OtherCategory && CategoryFrom(cats[1..], desc) == cats[1..][j'].name
                    && forall i :: 0 <= i < j' ==> !AnyMatch(cats[1..][i].patterns, desc) || cats[1..][i].name == OtherCategory;
          forall i | 0 <= i < j' + 1 ensures !AnyMatch(cats[i].patterns, desc) || cats[i].name == OtherCategory {
            if i > 0 {
              assert cats[i] == cats[1..][i - 1];
            }
          }
          assert cats[j' + 1] == cats[1..][j'];
        } else {
          forall j | 0 <= j < |cats[1..]|
            ensures !AnyMatch(cats[1..][j].patterns, desc) || cats[1..][j].name == OtherCategory
          {
            assert cats[1..][j] == cats[j + 1];
          }
        }
      }
    }
  }

  /** The category `categorize_transactions` gives a record. */
  function CategoryOf(cfg: Config, tx: Transaction): string {
    CategoryFrom(cfg.categories, Upper(cfg, tx.description))
  }

  /** The category loops of `categorize_transactions` for one description. */
  method CategoryFor(cfg: Config, desc: string) returns (category: string)
    ensures category == CategoryFrom(cfg.categories, desc)
  {
    var cats := cfg.categories;
    category := OtherCategory;
    var c := 0;
    while c < |cats|
      invariant 0 <= c <= |cats| && category == OtherCategory
      invariant CategoryFrom(cats, desc) == CategoryFrom(cats[c..], desc)
    {
      var patterns := cats[c].patterns;
      var p := 0;
      while p < |patterns|
        invariant 0 <= p <= |patterns| && category == OtherCategory
        invariant forall q :: 0 <= q < p ==> !patterns[q](desc)
      {
        if patterns[p](desc) {
          category := cats[c].name;
          break;
        }
        p := p + 1;
      }
      if category != OtherCategory {
        break;
      }
      assert cats[c..][1..] == cats[c + 1..];
      c := c + 1;
    }
  }

  /** `categorize_transactions(transactions)`: every record gets a category,
      in place, and nothing else changes. */
  method CategorizeTransactions(cfg: Config, a: array<Transaction>)
    modifies a
    ensures forall i :: 0 <= i < a.Length ==> a[i] == old(a[i]).(category := Some(CategoryOf(cfg, old(a[i]))))
  {
    for i := 0 to a.Length
      invariant forall j :: 0 <= j < i ==> a[j] == old(a[j]).(category := Some(CategoryOf(cfg, old(a[j]))))
      invariant forall j :: i <= j < a.Length ==> a[j] == old(a[j])
    {
      var desc := Upper(cfg, a[i].description);
      var category := CategoryFor(cfg, desc);
      a[i] := a[i].(category := Some(category));
    }
  }

  // ---------------------------------------------------------------------------
  // calculate_totals
  // ---------------------------------------------------------------------------

  /** The sum of the amounts of the income records. */
  function IncomeSum(txs: seq<Transaction>): real
    decreases |txs|
  {
    if txs == [] then 0.0
    else
      var tx := txs[|txs| - 1];
      IncomeSum(txs[..|txs| - 1]) + (if tx.direction == Income then tx.amount else 0.0)
  }

  /** The sum of the magnitudes of the expense records. */
  function ExpenseSum(txs: seq<Transaction>): (r: real)
    ensures r >= 0.0
    decreases |txs|
  {
    if txs == [] then 0.0
    else
      var tx := txs[|txs| - 1];
      ExpenseSum(txs[..|txs| - 1]) + (if tx.direction == Expense then Abs(tx.amount) else 0.0)
  }

  /** The sum of all amounts. */
  function AmountSum(txs: seq<Transaction>): real
    decreases |txs|
  {
    if txs == [] then 0.0 else AmountSum(txs[..|txs| - 1]) + txs[|txs| - 1].amount
  }

  /** `calculate_totals(transactions)`. */
  method CalculateTotals(txs: seq<Transaction>) returns (income: real, expense: real, net: real)
    ensures income == IncomeSum(txs) && expense == ExpenseSum(txs) && net == income - expense
  {
    income, expense := 0.0, 0.0;
    for i := 0 to |txs|
      invariant income == IncomeSum(txs[..i]) && expense == ExpenseSum(txs[..i])
    {
      assert txs[..i + 1][..i] == txs[..i];
      if txs[i].direction == Income {
        income := income + txs[i].amount;
      } else if txs[i].direction == Expense {
        expense := expense + Abs(txs[i].amount);
      }
    }
    assert txs[..|txs|] == txs;
    net := income - expense;
  }

  /** Records whose direction is neither income nor expense do not count. */
  lemma {:induction false} TotalsIgnoreOthers(txs: seq<Transaction>)
    requires forall i :: 0 <= i < |txs| ==> txs[i].direction != Income && txs[i].direction != Expense
    ensures IncomeSum(txs) == 0.0 && ExpenseSum(txs) == 0.0
    decreases |txs|
  {
    if txs != [] {
      TotalsIgnoreOthers(txs[..|txs| - 1]);
    }
  }

  /** For records whose direction follows their sign, as both current parsers
      produce them, the income is not negative and the net is the plain sum of
      the amounts. */
  lemma {:induction false} NetOfSignedRecords(txs: seq<Transaction>)
    requires forall i :: 0 <= i < |txs| ==> txs[i].direction == DirectionOf(txs[i].amount)
    ensures IncomeSum(txs) >= 0.0
    ensures IncomeSum(txs) - ExpenseSum(txs) == AmountSum(txs)
    decreases |txs|
  {
    if txs != [] {
      var init := txs[..|txs| - 1];
      assert forall i :: 0 <= i < |init| ==> init[i] == txs[i];
      NetOfSignedRecords(init);
    }
  }

  // ---------------------------------------------------------------------------
  // expenses_by_category, small_expenses_insight
  // ---------------------------------------------------------------------------

  /** `tx.get("category", "Прочее")`: the key is absent until categorisation. */
  function CategoryKey(tx: Transaction): string {
    tx.category.GetOr(OtherCategory)
  }

  predicate IsExpense(tx: Transaction) {
    tx.direction == Expense
  }

  /** The `defaultdict` loop: the magnitudes of the kept records, summed per
      category key. */
  function Tally(txs: seq<Transaction>, keep: Transaction -> bool): map<string, real>
    decreases |txs|
  {
    if txs == [] then map[]
    else
      var m := Tally(txs[..|txs| - 1], keep);
      var tx := txs[|txs| - 1];
      if keep(tx) then
        var k := CategoryKey(tx);
        m[k := (if k in m then m[k] else 0.0) + Abs(tx.amount)]
      else m
  }

  /** The sum of the magnitudes of the kept records with key `k`. */
  function CategoryTotal(txs: seq<Transaction>, keep: Transaction -> bool, k: string): (r: real)
    ensures r >= 0.0
    decreases |txs|
  {
    if txs == [] then 0.0
    else
      var tx := txs[|txs| - 1];
      CategoryTotal(txs[..|txs| - 1], keep, k) + (if keep(tx) && CategoryKey(tx) == k then Abs(tx.amount) else 0.0)
  }

  /** Some kept record has key `k`. */
  predicate HasKey(txs: seq<Transaction>, keep: Transaction -> bool, k: string) {
    exists i :: 0 <= i < |txs| && keep(txs[i]) && CategoryKey(txs[i]) == k
  }

  lemma HasKeySnoc(txs: seq<Transaction>, keep: Transaction -> bool, k: string)
    requires txs != []
    ensures var tx := txs[|txs| - 1];
      HasKey(txs, keep, k) <==> HasKey(txs[..|txs| - 1], keep, k) || (keep(tx) && CategoryKey(tx) == k)
  {
    var init := txs[..|txs| - 1];
    if HasKey(init, keep, k) {
      var i :| 0 <= i < |init| && keep(init[i]) && CategoryKey(init[i]) == k;
      assert txs[i] == init[i];
    }
    if HasKey(txs, keep, k) {
      var i :| 0 <= i < |txs| && keep(txs[i]) && CategoryKey(txs[i]) == k;
      if i < |init| {
        assert txs[i] == init[i];
      }
    }
  }

  lemma {:induction false} NoKeyNoTotal(txs: seq<Transaction>, keep: Transaction -> bool, k: string)
    requires !HasKey(txs, keep, k)
    ensures CategoryTotal(txs, keep, k) == 0.0
    decreases |txs|
  {
    if txs != [] {
      HasKeySnoc(txs, keep, k);
      NoKeyNoTotal(txs[..|txs| - 1], keep, k);
    }
  }

  /** A key is in the result exactly when a kept record has it, and its value is
      the sum of the magnitudes of the kept records with that key. */
  lemma {:induction false} TallySpec(txs: seq<Transaction>, keep: Transaction -> bool, k: string)
    ensures k in Tally(txs, keep) <==> HasKey(txs, keep, k)
    ensures k in Tally(txs, keep) ==> Tally(txs, keep)[k] == CategoryTotal(txs, keep, k)
    decreases |txs|
  {
    if txs != [] {
      var init := txs[..|txs| - 1];
      TallySpec(init, keep, k);
      HasKeySnoc(txs, keep, k);
      if !HasKey(init, keep, k) {
        NoKeyNoTotal(init, keep, k);
      }
    }
  }

  /** `expenses_by_category(transactions)`. */
  method ExpensesByCategory(txs: seq<Transaction>) returns (result: map<string, real>)
    ensures result == Tally(txs, IsExpense)
  {
    result := map[];
    for i := 0 to |txs|
      invariant result == Tally(txs[..i], IsExpense)
    {
      assert txs[..i + 1][..i] == txs[..i];
      var tx := txs[i];
      if tx.direction == Expense {
        var k := CategoryKey(tx);
        result := result[k := (if k in result then result[k] else 0.0) + Abs(tx.amount)];
      }
    }
    assert txs[..|txs|] == txs;
  }

  /** The records `small_expenses_insight` counts. */
  predicate IsSmallExpense(threshold: int, tx: Transaction) {
    tx.direction == Expense && Abs(tx.amount) <= threshold as real
  }

  /** `small_expenses_insight(transactions, threshold)`. */
  method SmallExpensesInsight(txs: seq<Transaction>, threshold: int) returns (result: map<string, real>)
    ensures result == Tally(txs, tx => IsSmallExpense(threshold, tx))
  {
    result := map[];
    for i := 0 to |txs|
      invariant result == Tally(txs[..i], tx => IsSmallExpense(threshold, tx))
    {
      assert txs[..i + 1][..i] == txs[..i];
      var tx := txs[i];
      if tx.direction == Expense && Abs(tx.amount) <= threshold as real {
        var k := CategoryKey(tx);
        result := result[k := (if k in result then result[k] else 0.0) + Abs(tx.amount)];
      }
    }
    assert txs[..|txs|] == txs;
  }

  lemma {:induction false} CategoryTotalMonotone(txs: seq<Transaction>, keep1: Transaction -> bool,
                                                 keep2: Transaction -> bool, k: string)
    requires forall tx :: keep1(tx) ==> keep2(tx)
    ensures CategoryTotal(txs, keep1, k) <= CategoryTotal(txs, keep2, k)
    decreases |txs|
  {
    if txs != [] {
      CategoryTotalMonotone(txs[..|txs| - 1], keep1, keep2, k);
    }
  }

  /** Every category of the small-expense sums is an expense category, and its
      small-expense sum is at most its expense sum. */
  lemma SmallWithinCategory(txs: seq<Transaction>, threshold: int, k: string)
    requires k in Tally(txs, tx => IsSmallExpense(threshold, tx))
    ensures k in Tally(txs, IsExpense)
    ensures Tally(txs, tx => IsSmallExpense(threshold, tx))[k] <= Tally(txs, IsExpense)[k]
  {
    var small: Transaction -> bool := tx => IsSmallExpense(threshold, tx);
    TallySpec(txs, small, k);
    TallySpec(txs, IsExpense, k);
    var i :| 0 <= i < |txs| && small(txs[i]) && CategoryKey(txs[i]) == k;
    assert IsExpense(txs[i]);
    CategoryTotalMonotone(txs, small, IsExpense, k);
  }

  /** No key twice. */
  predicate Distinct(ks: seq<string>) {
    forall i, j :: 0 <= i < j < |ks| ==> ks[i] != ks[j]
  }

  /** The sum of the category totals of the keys `ks`. */
  function SumOver(txs: seq<Transaction>, keep: Transaction -> bool, ks: seq<string>): real
    decreases |ks|
  {
    if ks == [] then 0.0 else CategoryTotal(txs, keep, ks[0]) + SumOver(txs, keep, ks[1..])
  }

  /** The sum of the magnitudes of all kept records. */
  function KeptSum(txs: seq<Transaction>, keep: Transaction -> bool): real
    decreases |txs|
  {
    if txs == [] then 0.0
    else
      var tx := txs[|txs| - 1];
      KeptSum(txs[..|txs| - 1], keep) + (if keep(tx) then Abs(tx.amount) else 0.0)
  }

  lemma {:induction false} SumOverSnoc(txs: seq<Transaction>, keep: Transaction -> bool, ks: seq<string>)
    requires txs != [] && Distinct(ks)
    ensures var tx := txs[|txs| - 1];
      SumOver(txs, keep, ks)
        == SumOver(txs[..|txs| - 1], keep, ks) + (if keep(tx) && CategoryKey(tx) in ks then Abs(tx.amount) else 0.0)
    decreases |ks|
  {
    if ks != [] {
      assert Distinct(ks[1..]) by {
        forall i, j | 0 <= i < j < |ks[1..]| ensures ks[1..][i] != ks[1..][j] {
          assert ks[1..][i] == ks[i + 1] && ks[1..][j] == ks[j + 1];
        }
      }
      SumOverSnoc(txs, keep, ks[1..]);
      var k := CategoryKey(txs[|txs| - 1]);
      assert k in ks <==> k == ks[0] || k in ks[1..] by {
        assert ks == [ks[0]] + ks[1..];
      }
      if k == ks[0] {
        assert k !in ks[1..] by {
          forall i | 0 <= i < |ks[1..]| ensures ks[1..][i] != k {
            assert ks[1..][i] == ks[i + 1];
          }
        }
      }
    }
  }

  lemma {:induction false} SumOverKeys(txs: seq<Transaction>, keep: Transaction -> bool, ks: seq<string>)
    requires Distinct(ks)
    requires forall i :: 0 <= i < |txs| && keep(txs[i]) ==> CategoryKey(txs[i]) in ks
    ensures SumOver(txs, keep, ks) == KeptSum(txs, keep)
    decreases |txs|
  {
    if txs == [] {
      SumOverEmpty(keep, ks);
    } else {
      var init := txs[..|txs| - 1];
      assert forall i :: 0 <= i < |init| ==> init[i] == txs[i];
      SumOverKeys(init, keep, ks);
      SumOverSnoc(txs, keep, ks);
    }
  }

  lemma {:induction false} SumOverEmpty(keep: Transaction -> bool, ks: seq<string>)
    ensures SumOver([], keep, ks) == 0.0
    decreases |ks|
  {
    if ks != [] {
      SumOverEmpty(keep, ks[1..]);
    }
  }

  lemma {:induction false} ExpenseIsKept(txs: seq<Transaction>)
    ensures ExpenseSum(txs) == KeptSum(txs, IsExpense)
    decreases |txs|
  {
    if txs != [] {
      ExpenseIsKept(txs[..|txs| - 1]);
    }
  }

  /** The sum of the values of `m` at the keys `ks`. */
  function MapSum(m: map<string, real>, ks: seq<string>): real
    requires forall i :: 0 <= i < |ks| ==> ks[i] in m
    decreases |ks|
  {
    if ks == [] then 0.0 else m[ks[0]] + MapSum(m, ks[1..])
  }

  lemma {:induction false} MapSumOfTally(txs: seq<Transaction>, keep: Transaction -> bool, ks: seq<string>)
    requires forall i :: 0 <= i < |ks| ==> ks[i] in Tally(txs, keep)
    ensures MapSum(Tally(txs, keep), ks) == SumOver(txs, keep, ks)
    decreases |ks|
  {
    if ks != [] {
      TallySpec(txs, keep, ks[0]);
      MapSumOfTally(txs, keep, ks[1..]);
    }
  }

  /** The values of `expenses_by_category` add up to the expense total of
      `calculate_totals`, whatever order the keys are listed in. */
  lemma CategoriesAddUp(txs: seq<Transaction>, ks: seq<string>)
    requires Distinct(ks)
    requires forall k :: k in Tally(txs, IsExpense) <==> k in ks
    ensures MapSum(Tally(txs, IsExpense), ks) == ExpenseSum(txs)
  {
    MapSumOfTally(txs, IsExpense, ks);
    forall i | 0 <= i < |txs| && IsExpense(txs[i]) ensures CategoryKey(txs[i]) in ks {
      TallySpec(txs, IsExpense, CategoryKey(txs[i]));
    }
    SumOverKeys(txs, IsExpense, ks);
    ExpenseIsKept(txs);
  }

  // ---------------------------------------------------------------------------
  // adaptive_category_limits, saving_scenarios
  // ---------------------------------------------------------------------------

  /** `quantize(Decimal("1"))` under the default rounding, half to even. */
  function RoundHalfEven(x: real): (r: int)
    ensures x - 0.5 <= r as real <= x + 0.5
    ensures (r as real - x == 0.5 || x - r as real == 0.5) ==> r % 2 == 0
  {
    var f := x.Floor;
    var d := x - f as real;
    if d < 0.5 then f
    else if d > 0.5 then f + 1
    else if f % 2 == 0 then f else f + 1
  }

  /** Rounding never reverses an order. */
  lemma RoundMonotone(x: real, y: real)
    requires x <= y
    ensures RoundHalfEven(x) <= RoundHalfEven(y)
  {
  }

  /** `ok`, `warning`, `exceeded`. */
  datatype Status = OnTrack | Warning | Exceeded

  datatype Limit = Limit(spent: real, limit: int, remaining: real, status: Status)

  /** The entry `adaptive_category_limits` builds for one category. */
  function LimitFor(spent: real, cut: int): (l: Limit)
    ensures l.limit == RoundHalfEven(spent * ((100 - cut) as real / 100.0))
    ensures l.spent == spent && l.remaining == l.limit as real - spent
    ensures l.status == Exceeded <==> l.remaining <= 0.0
  {
    var limit := RoundHalfEven(spent * ((100 - cut) as real / 100.0));
    var status :=
      if spent >= limit as real then Exceeded
      else if spent >= limit as real * 0.8 then Warning
      else OnTrack;
    Limit(spent, limit, limit as real - spent, status)
  }

  lemma CutShare(spent: real, cut: int)
    requires spent >= 0.0 && spent * cut as real >= 50.0
    ensures spent * ((100 - cut) as real / 100.0) <= spent - 0.5
  {
    assert spent * ((100 - cut) as real / 100.0) == spent - spent * cut as real / 100.0;
  }

  /** The limit is taken from the spending itself, so once the cut is worth half
      a unit or more (at the default cut of 10, any category with 5 or more
      spent) the category is `exceeded`. */
  lemma ExceededOnceCutCounts(spent: real, cut: int)
    requires spent >= 0.0 && spent * cut as real >= 50.0
    ensures LimitFor(spent, cut).status == Exceeded
  {
    CutShare(spent, cut);
  }

  /** A category is `warning` or `ok` only with room left under the limit, and
      `ok` only below four fifths of it. */
  lemma StatusBands(spent: real, cut: int)
    ensures var l := LimitFor(spent, cut);
      && (l.status == Warning ==> 0.8 * l.limit as real <= spent < l.limit as real)
      && (l.status == OnTrack ==> spent < 0.8 * l.limit as real)
  {
  }

  /** `adaptive_category_limits(transactions, cut_percent)`. */
  method AdaptiveCategoryLimits(txs: seq<Transaction>, cut: int) returns (result: map<string, Limit>)
    ensures result.Keys == Tally(txs, IsExpense).Keys
    ensures forall k :: k in result ==> result[k] == LimitFor(Tally(txs, IsExpense)[k], cut)
  {
    var expenses := ExpensesByCategory(txs);
    result := map[];
    var todo := expenses.Keys;
    while todo != {}
      invariant todo <= expenses.Keys && result.Keys == expenses.Keys - todo
      invariant forall k :: k in result ==> result[k] == LimitFor(expenses[k], cut)
      decreases |todo|
    {
      var category :| category in todo;
      result := result[category := LimitFor(expenses[category], cut)];
      todo := todo - {category};
    }
  }

  /** The saving of `saving_scenarios` for one category and one percentage. */
  function Saving(amount: real, p: int): int {
    RoundHalfEven(amount * p as real / 100.0)
  }

  lemma ScaleMonotone(amount: real, p: int, q: int, x: real, y: real)
    requires amount >= 0.0 && p <= q
    requires x == amount * p as real / 100.0 && y == amount * q as real / 100.0
    ensures x <= y
  {
    var d := (q - p) as real;
    assert amount * d >= 0.0;
    assert y - x == amount * d / 100.0;
  }

  /** A larger percentage never saves less, and saving nothing saves nothing. */
  lemma SavingMonotone(amount: real, p: int, q: int)
    requires amount >= 0.0 && p <= q
    ensures Saving(amount, p) <= Saving(amount, q)
    ensures Saving(amount, 0) == 0
  {
    var x, y := amount * p as real / 100.0, amount * q as real / 100.0;
    ScaleMonotone(amount, p, q, x, y);
    RoundMonotone(x, y);
  }

  /** `saving_scenarios(transactions, percents)`: per category, per listed
      percentage (a repeated percentage is one key). */
  method SavingScenarios(txs: seq<Transaction>, percents: seq<int>) returns (scenarios: map<string, map<int, int>>)
    ensures scenarios.Keys == Tally(txs, IsExpense).Keys
    ensures forall k :: k in scenarios ==>
      && (forall p :: p in scenarios[k] <==> p in percents)
      && forall p :: p in scenarios[k] ==> scenarios[k][p] == Saving(Tally(txs, IsExpense)[k], p)
  {
    var expenses := ExpensesByCategory(txs);
    scenarios := map[];
    var todo := expenses.Keys;
    while todo != {}
      invariant todo <= expenses.Keys && scenarios.Keys == expenses.Keys - todo
      invariant forall k :: k in scenarios ==>
        && (forall p :: p in scenarios[k] <==> p in percents)
        && forall p :: p in scenarios[k] ==> scenarios[k][p] == Saving(expenses[k], p)
      decreases |todo|
    {
      var category :| category in todo;
      var amount := expenses[category];
      var values: map<int, int> := map[];
      for i := 0 to |percents|
        invariant forall p :: p in values <==> p in percents[..i]
        invariant forall p :: p in values ==> values[p] == Saving(amount, p)
      {
        assert percents[..i + 1] == percents[..i] + [percents[i]];
        values := values[percents[i] := Saving(amount, percents[i])];
      }
      assert percents[..|percents|] == percents;
      scenarios := scenarios[category := values];
      todo := todo - {category};
    }
  }

  // ---------------------------------------------------------------------------
  // recurring_payments
  // ---------------------------------------------------------------------------

  /** The `Counter` key of an expense record. */
  function PaymentKey(cfg: Config, tx: Transaction): string {
    Upper(cfg, tx.description)
  }

  /** The `Counter` loop. */
  function Counts(cfg: Config, txs: seq<Transaction>): map<string, nat>
    decreases |txs|
  {
    if txs == [] then map[]
    else
      var m := Counts(cfg, txs[..|txs| - 1]);
      var tx := txs[|txs| - 1];
      if tx.direction == Expense then
        var k := PaymentKey(cfg, tx);
        m[k := (if k in m then m[k] else 0) + 1]
      else m
  }

  /** The number of expense records with key `k`. */
  function CountOf(cfg: Config, txs: seq<Transaction>, k: string): nat
    decreases |txs|
  {
    if txs == [] then 0
    else
      var tx := txs[|txs| - 1];
      CountOf(cfg, txs[..|txs| - 1], k) + (if tx.direction == Expense && PaymentKey(cfg, tx) == k then 1 else 0)
  }

  /** The counter holds exactly the keys that occur, with their counts. */
  lemma {:induction false} CountsSpec(cfg: Config, txs: seq<Transaction>, k: string)
    ensures k in Counts(cfg, txs) <==> CountOf(cfg, txs, k) > 0
    ensures k in Counts(cfg, txs) ==> Counts(cfg, txs)[k] == CountOf(cfg, txs, k)
    decreases |txs|
  {
    if txs != [] {
      CountsSpec(cfg, txs[..|txs| - 1], k);
    }
  }

  /** `recurring_payments(transactions, min_count)`. */
  method RecurringPayments(cfg: Config, txs: seq<Transaction>, minCount: int) returns (result: map<string, nat>)
    ensures forall k :: k in result <==> k in Counts(cfg, txs) && Counts(cfg, txs)[k] >= minCount
    ensures forall k :: k in result ==> result[k] == Counts(cfg, txs)[k]
  {
    var counter: map<string, nat> := map[];
    for i := 0 to |txs|
      invariant counter == Counts(cfg, txs[..i])
    {
      assert txs[..i + 1][..i] == txs[..i];
      var tx := txs[i];
      if tx.direction == Expense {
        var key := PaymentKey(cfg, tx);
        counter := counter[key := (if key in counter then counter[key] else 0) + 1];
      }
    }
    assert txs[..|txs|] == txs;
    result := map k | k in counter && counter[k] >= minCount :: counter[k];
  }

  /** A description is reported with the number of expense records carrying it
      (once upper-cased) exactly when that number reaches `min_count` and the
      description occurs at all. */
  lemma RecurringSpec(cfg: Config, txs: seq<Transaction>, minCount: int, k: string)
    ensures var c := CountOf(cfg, txs, k);
      (k in Counts(cfg, txs) && Counts(cfg, txs)[k] >= minCount) <==> c > 0 && c >= minCount
  {
    CountsSpec(cfg, txs, k);
  }
}
