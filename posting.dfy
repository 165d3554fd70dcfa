/**
 * The posting rule: a depreciation line becomes a journal entry whose two
 * move lines move the converted amount from the expense account to the
 * accumulated-depreciation account.
 */
module Posting {
  import opened Wrappers
  import opened Calendar
  import opened Board
  import opened Records

  /**
   * `create_move_lines`: the accumulated-depreciation line, credited with the
   * company-currency amount, then the expense line, debited with it. A
   * non-positive amount swaps sides, so no side is ever negative. When the
   * asset's currency is not the company's, the lines carry the asset
   * currency and the line amount in it, with opposite signs. Accounts fall
   * back from the asset to its category; the journal is the category's.
   */
  function CreateMoveLines(move: MoveId, assetId: AssetId, a: Asset, lineAmount: real, amount: real,
                           date: Date, period: Option<PeriodId>): (r: seq<MoveLine>)
    ensures |r| == 2 && r[0].role == Accumulated && r[1].role == Expense
    ensures r[0].credit - r[0].debit == amount && r[1].debit - r[1].credit == amount
    ensures forall l <- r :: 0.0 <= l.debit && 0.0 <= l.credit && (l.debit == 0.0 || l.credit == 0.0)
    ensures forall l <- r :: l.move == move && l.asset == assetId && l.date == date && l.period == period
    ensures forall l <- r :: l.journal == a.categoryJournal && l.partner == a.partner && l.reference == a.name
    ensures forall l <- r :: l.analytic == OrElse(a.accounts.analytic, a.categoryAccounts.analytic)
    ensures r[0].account == OrElse(a.accounts.depreciation, a.categoryAccounts.depreciation)
    ensures r[1].account == OrElse(a.accounts.expense, a.categoryAccounts.expense)
    ensures forall l <- r :: (l.currency.Some? <==> a.companyCurrency != a.currency)
                            && (l.currency.Some? ==> l.currency.value == a.currency)
    ensures a.companyCurrency != a.currency ==> r[1].amountCurrency == lineAmount
    ensures a.companyCurrency == a.currency ==> r[1].amountCurrency == 0.0
    ensures r[0].amountCurrency == -r[1].amountCurrency
  {
    var positive := amount > 0.0;
    var foreign := a.companyCurrency != a.currency;
    var currency := if foreign then Some(a.currency) else None;
    var shown := if foreign then lineAmount else 0.0;
    var analytic := OrElse(a.accounts.analytic, a.categoryAccounts.analytic);
    [ MoveLine(Accumulated, move, a.name, OrElse(a.accounts.depreciation, a.categoryAccounts.depreciation),
               if positive then 0.0 else -amount, if positive then amount else 0.0,
               period, a.categoryJournal, a.partner, currency, -shown, analytic, date, assetId),
      MoveLine(Expense, move, a.name, OrElse(a.accounts.expense, a.categoryAccounts.expense),
               if positive then amount else 0.0, if positive then 0.0 else -amount,
               period, a.categoryJournal, a.partner, currency, shown, analytic, date, assetId) ]
  }

  /** The entry header `create_move` writes: the journal falls back from the asset to its category. */
  function MoveFor(a: Asset, date: Date, period: Option<PeriodId>): (m: Move)
    ensures m.date == date && m.period == period && m.reference == a.name
    ensures a.journal.Some? ==> m.journal == a.journal
    ensures a.journal.None? ==> m.journal == a.categoryJournal
  {
    Move(date, period, OrElse(a.journal, a.categoryJournal), a.name)
  }

  function TotalDebit(ls: seq<MoveLine>): real {
    if ls == [] then 0.0 else ls[0].debit + TotalDebit(ls[1..])
  }

  function TotalCredit(ls: seq<MoveLine>): real {
    if ls == [] then 0.0 else ls[0].credit + TotalCredit(ls[1..])
  }

  /**
   * Every depreciation entry is balanced, and its two lines mirror each
   * other: what one debits the other credits.
   */
  lemma {:induction false} EntryBalanced(move: MoveId, assetId: AssetId, a: Asset, lineAmount: real, amount: real,
                                         date: Date, period: Option<PeriodId>)
    ensures var r := CreateMoveLines(move, assetId, a, lineAmount, amount, date, period);
      TotalDebit(r) == TotalCredit(r) && r[0].debit == r[1].credit && r[0].credit == r[1].debit
  {
    var r := CreateMoveLines(move, assetId, a, lineAmount, amount, date, period);
    assert r[1..][1..] == [];
    assert TotalDebit(r[1..]) == r[1].debit + TotalDebit(r[1..][1..]);
    assert TotalCredit(r[1..]) == r[1].credit + TotalCredit(r[1..][1..]);
  }

  function Abs(x: real): real {
    if x < 0.0 then -x else x
  }

  /**
   * The entry's own journal and its lines' journal disagree whenever the
   * asset names a journal other than its category's: the header takes the
   * asset's, the lines always the category's.
   */
  lemma {:induction false} JournalMismatch(move: MoveId, assetId: AssetId, a: Asset, lineAmount: real, amount: real,
                                           date: Date, period: Option<PeriodId>)
    requires a.journal.Some? && a.journal != a.categoryJournal
    ensures forall l <- CreateMoveLines(move, assetId, a, lineAmount, amount, date, period) ::
      l.journal != MoveFor(a, date, period).journal
  {
  }

  /** Two move lines form one depreciation entry: same asset, opposite roles, mirrored sides. */
  predicate Mirrored(x: MoveLine, y: MoveLine) {
    x.role == Accumulated && y.role == Expense && x.move == y.move && x.asset == y.asset
    && x.debit == y.credit && x.credit == y.debit
  }

  /** A sequence of move lines made of whole depreciation entries, two lines each. */
  predicate Paired(mls: seq<MoveLine>) {
    mls == [] || (|mls| >= 2 && Mirrored(mls[0], mls[1]) && Paired(mls[2..]))
  }

  lemma {:induction false} EntryPaired(move: MoveId, assetId: AssetId, a: Asset, lineAmount: real, amount: real,
                                       date: Date, period: Option<PeriodId>)
    ensures Paired(CreateMoveLines(move, assetId, a, lineAmount, amount, date, period))
  {
    var r := CreateMoveLines(move, assetId, a, lineAmount, amount, date, period);
    assert r[2..] == [];
  }

  lemma {:induction false} PairedAppend(xs: seq<MoveLine>, ys: seq<MoveLine>)
    requires Paired(xs) && Paired(ys)
    ensures Paired(xs + ys)
    decreases |xs|
  {
    if xs != [] {
      PairedAppend(xs[2..], ys);
      assert (xs + ys)[2..] == xs[2..] + ys;
      assert (xs + ys)[0] == xs[0] && (xs + ys)[1] == xs[1];
    } else {
      assert xs + ys == ys;
    }
  }

  /**
   * `_amount_residual` as written: the absolute balance of every move line
   * that carries the asset, whichever account it sits on.
   */
  function PostedTotalAsWritten(mls: seq<MoveLine>, id: AssetId): (r: real)
    ensures r >= 0.0
    ensures mls == [] ==> r == 0.0
  {
    if mls == [] then 0.0
    else (if mls[0].asset == id then Abs(mls[0].debit - mls[0].credit) else 0.0)
         + PostedTotalAsWritten(mls[1..], id)
  }

  /**
   * The depreciation posted so far for an asset: the absolute balance of its
   * accumulated-depreciation lines only, one per entry.
   */
  function PostedTotal(mls: seq<MoveLine>, id: AssetId): (r: real)
    ensures 0.0 <= r <= PostedTotalAsWritten(mls, id)
  {
    if mls == [] then 0.0
    else (if mls[0].asset == id && mls[0].role == Accumulated then Abs(mls[0].debit - mls[0].credit) else 0.0)
         + PostedTotal(mls[1..], id)
  }

  /** Over whole entries, the as-written sum counts every posting twice. */
  lemma {:induction false} PostedTotalDoubleCounts(mls: seq<MoveLine>, id: AssetId)
    requires Paired(mls)
    ensures PostedTotalAsWritten(mls, id) == 2.0 * PostedTotal(mls, id)
    decreases |mls|
  {
    if mls != [] {
      PostedTotalDoubleCounts(mls[2..], id);
      assert mls[1..][1..] == mls[2..];
    }
  }

  /**
   * Posting one more entry raises the corrected total of its asset by exactly
   * the posted amount, and leaves every other asset's total as it was.
   */
  lemma {:induction false} PostedTotalAfterEntry(mls: seq<MoveLine>, move: MoveId, a: Asset, id: AssetId,
                                                 lineAmount: real, amount: real, date: Date, period: Option<PeriodId>,
                                                 q: AssetId)
    ensures PostedTotal(mls + CreateMoveLines(move, id, a, lineAmount, amount, date, period), q)
         == PostedTotal(mls, q) + (if q == id then Abs(amount) else 0.0)
    decreases |mls|
  {
    var r := CreateMoveLines(move, id, a, lineAmount, amount, date, period);
    if mls == [] {
      assert [] + r == r;
      assert r[1..][1..] == [];
    } else {
      PostedTotalAfterEntry(mls[1..], move, a, id, lineAmount, amount, date, period, q);
      assert (mls + r)[1..] == mls[1..] + r;
    }
  }

  /**
   * `_amount_residual`: the purchase value less what has been posted
   * (converted from the company currency to the asset's at the rate of the
   * context's date `at`, today when None) and the salvage value.
   */
  function ValueResidual(a: Asset, mls: seq<MoveLine>, id: AssetId, svc: Services, at: Option<Date>): (r: real)
    ensures r + Convert(svc, a.companyCurrency, a.currency, PostedTotal(mls, id), at) + a.terms.salvageValue
         == a.terms.purchaseValue
  {
    AmountResidual(a.terms, Convert(svc, a.companyCurrency, a.currency, PostedTotal(mls, id), at))
  }

  /** The residual as written, over the double-counted sum. */
  function ValueResidualAsWritten(a: Asset, mls: seq<MoveLine>, id: AssetId, svc: Services, at: Option<Date>): (r: real)
    ensures r + Convert(svc, a.companyCurrency, a.currency, PostedTotalAsWritten(mls, id), at) + a.terms.salvageValue
         == a.terms.purchaseValue
  {
    AmountResidual(a.terms, Convert(svc, a.companyCurrency, a.currency, PostedTotalAsWritten(mls, id), at))
  }

  /**
   * One posted entry of a non-zero amount, for an asset kept in the company
   * currency:
   * the corrected residual drops by the amount, the as-written one by twice
   * the amount.
   */
  lemma {:induction false} ResidualAfterOneEntry(move: MoveId, id: AssetId, a: Asset, lineAmount: real, amount: real,
                                                 date: Date, period: Option<PeriodId>, svc: Services)
    requires amount != 0.0 && a.currency == a.companyCurrency
    ensures var mls := CreateMoveLines(move, id, a, lineAmount, amount, date, period);
      ValueResidual(a, mls, id, svc, None) == a.terms.purchaseValue - a.terms.salvageValue - Abs(amount)
      && ValueResidualAsWritten(a, mls, id, svc, None) == a.terms.purchaseValue - a.terms.salvageValue - 2.0 * Abs(amount)
      && ValueResidualAsWritten(a, mls, id, svc, None) < ValueResidual(a, mls, id, svc, None)
  {
    var mls := CreateMoveLines(move, id, a, lineAmount, amount, date, period);
    PostedTotalAfterEntry([], move, a, id, lineAmount, amount, date, period, id);
    assert [] + mls == mls;
    EntryPaired(move, id, a, lineAmount, amount, date, period);
    PostedTotalDoubleCounts(mls, id);
  }
}
