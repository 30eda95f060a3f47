/** The older transfer classifier (`classifier.py`).  It differs from the
    analytics one in two ways: keywords are matched case-sensitively, and a
    transfer's direction is overwritten with `transfer`. */
module Classifier {
  import opened Wrappers
  import opened Strings
  import opened Records
  import Analytics

  /** `any(k in desc for k in keywords)`, case-sensitive. */
  predicate ContainsAnyExact(text: string, keywords: seq<string>) {
    exists j :: 0 <= j < |keywords| && Contains(text, keywords[j])
  }

  function LegacyTransferType(cfg: Config, description: string): TransferType {
    if ContainsAnyExact(description, cfg.selfKeywords) then ToSelf
    else if ContainsAnyExact(description, cfg.familyKeywords) then ToFamily
    else ToOther
  }

  /** The loop body of `classify_transfers` for one record. */
  function LegacyClassifyOne(cfg: Config, tx: Transaction): (r: Transaction)
    ensures r.(direction := tx.direction, transferType := tx.transferType) == tx
  {
    if tx.operation != TransferOperation then tx
    else tx.(direction := Transfer, transferType := Some(LegacyTransferType(cfg, tx.description)))
  }

  /** Records whose operation is not exactly `Перевод` are untouched; a
      transfer becomes direction `transfer`, typed `self` exactly when a self
      keyword occurs as written, `family` exactly when none does but a family
      keyword does, and `other` otherwise. */
  lemma LegacyClassifySpec(cfg: Config, tx: Transaction)
    ensures tx.operation != TransferOperation ==> LegacyClassifyOne(cfg, tx) == tx
    ensures tx.operation == TransferOperation ==>
      var r := LegacyClassifyOne(cfg, tx);
      && r.direction == Transfer
      && (r.transferType == Some(ToSelf) <==> ContainsAnyExact(tx.description, cfg.selfKeywords))
      && (r.transferType == Some(ToFamily) <==>
            (!ContainsAnyExact(tx.description, cfg.selfKeywords) && ContainsAnyExact(tx.description, cfg.familyKeywords)))
      && (r.transferType == Some(ToOther) <==>
            (!ContainsAnyExact(tx.description, cfg.selfKeywords) && !ContainsAnyExact(tx.description, cfg.familyKeywords)))
  {
  }

  /** `classify_transfers(transactions)`: in place, returning nothing; the
      length and order of the list do not change. */
  method ClassifyTransfers(cfg: Config, a: array<Transaction>)
    modifies a
    ensures forall i :: 0 <= i < a.Length ==> a[i] == LegacyClassifyOne(cfg, old(a[i]))
  {
    for i := 0 to a.Length
      invariant forall j :: 0 <= j < i ==> a[j] == LegacyClassifyOne(cfg, old(a[j]))
      invariant forall j :: i <= j < a.Length ==> a[j] == old(a[j])
    {
      if a[i].operation == TransferOperation {
        var desc := a[i].description;
        a[i] := a[i].(direction := Transfer);
        if ContainsAnyExact(desc, cfg.selfKeywords) {
          a[i] := a[i].(transferType := Some(ToSelf));
        } else if ContainsAnyExact(desc, cfg.familyKeywords) {
          a[i] := a[i].(transferType := Some(ToFamily));
        } else {
          a[i] := a[i].(transferType := Some(ToOther));
        }
      }
    }
  }

  /** An occurrence as written is an occurrence once both sides are
      lower-cased. */
  lemma ExactHitIsCaselessHit(cfg: Config, text: string, keywords: seq<string>)
    requires ContainsAnyExact(text, keywords)
    ensures Analytics.ContainsAny(cfg, text, keywords)
  {
    var j :| 0 <= j < |keywords| && Contains(text, keywords[j]);
    var at := IndexOf(text, keywords[j]);
    MapCharsKeepsOccurrence(cfg.lower, text, keywords[j], at);
    assert OccursAt(Lower(cfg, text), Lower(cfg, keywords[j]), at);
    assert IndexOf(Lower(cfg, text), Lower(cfg, keywords[j])) != -1;
  }

  /** What the older classifier calls a self transfer the analytics one does
      too, and what the analytics one calls `other` the older one does too;
      the reverse implications fail when a keyword matches only up to case. */
  lemma LegacyAgreesOnClearCases(cfg: Config, tx: Transaction)
    requires tx.operation == TransferOperation
    ensures LegacyClassifyOne(cfg, tx).transferType == Some(ToSelf) ==>
      Analytics.ClassifyOne(cfg, tx).transferType == Some(ToSelf)
    ensures Analytics.ClassifyOne(cfg, tx).transferType == Some(ToOther) ==>
      LegacyClassifyOne(cfg, tx).transferType == Some(ToOther)
  {
    if ContainsAnyExact(tx.description, cfg.selfKeywords) {
      ExactHitIsCaselessHit(cfg, tx.description, cfg.selfKeywords);
    }
    if ContainsAnyExact(tx.description, cfg.familyKeywords) {
      ExactHitIsCaselessHit(cfg, tx.description, cfg.familyKeywords);
    }
  }

  /** After the older classification a transfer counts neither as income nor
      as expense in `calculate_totals`. */
  lemma {:induction false} ClassifiedTransfersNotTotalled(cfg: Config, txs: seq<Transaction>)
    requires forall i :: 0 <= i < |txs| ==> txs[i].operation == TransferOperation
    ensures var r := seq(|txs|, i requires 0 <= i < |txs| => LegacyClassifyOne(cfg, txs[i]));
      Analytics.IncomeSum(r) == 0.0 && Analytics.ExpenseSum(r) == 0.0
  {
    var r := seq(|txs|, i requires 0 <= i < |txs| => LegacyClassifyOne(cfg, txs[i]));
    Analytics.TotalsIgnoreOthers(r);
  }
}
