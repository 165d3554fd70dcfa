/**
 * The records the depreciation engine reads and writes: assets, their
 * depreciation lines, and the journal entries (moves and move lines) that
 * posting a line creates. Identifiers are database ids.
 */
module Records {
  import opened Wrappers
  import opened Calendar
  import opened Board

  type AssetId = nat
  type LineId = nat
  type MoveId = nat
  type PeriodId = nat
  type AccountId = nat
  type CurrencyId = nat
  type PartnerId = nat
  type JournalId = nat

  /** `account.asset.asset.state`. */
  datatype AssetState = Draft | Open | Close

  /** `account.asset.depreciation.line.state`. */
  datatype LineState = Draft | Done | Cancel

  /** Whether approving a line posts an entry (`auto`) or not. */
  datatype Valuation = Auto | Manual

  /** The accumulated-depreciation, expense and analytic accounts, each optional. */
  datatype Accounts = Accounts(
    depreciation: Option<AccountId>,
    expense: Option<AccountId>,
    analytic: Option<AccountId>)

  /**
   * An asset: its depreciation terms, its currency and its company's, and
   * the accounts and journal set on the asset itself and on its category.
   */
  datatype Asset = Asset(
    name: string,
    code: string,
    state: AssetState,
    terms: Terms,
    valuation: Valuation,
    currency: CurrencyId,
    companyCurrency: CurrencyId,
    partner: Option<PartnerId>,
    journal: Option<JournalId>,
    accounts: Accounts,
    categoryJournal: Option<JournalId>,
    categoryAccounts: Accounts)

  /** A depreciation line record: the board values plus its state and posting links. */
  datatype Line = Line(
    id: LineId,
    asset: AssetId,
    values: DepLine,
    state: LineState,
    move: Option<MoveId>,
    period: Option<PeriodId>)

  /** A journal entry header (`account.move`). */
  datatype Move = Move(
    date: Date,
    period: Option<PeriodId>,
    journal: Option<JournalId>,
    reference: string)

  /** Which of the two lines of a depreciation entry a move line is. */
  datatype Role = Accumulated | Expense

  /** A journal item (`account.move.line`) created for a depreciation entry. */
  datatype MoveLine = MoveLine(
    role: Role,
    move: MoveId,
    reference: string,
    account: Option<AccountId>,
    debit: real,
    credit: real,
    period: Option<PeriodId>,
    journal: Option<JournalId>,
    partner: Option<PartnerId>,
    currency: Option<CurrencyId>,
    amountCurrency: real,
    analytic: Option<AccountId>,
    date: Date,
    asset: AssetId)

  /**
   * What the engine asks of the rest of the system: a currency rate lookup
   * (`res.currency.compute`, at a date or, with None, today) and the
   * accounting period containing a date (`account.period.find`).
   */
  datatype Services = Services(
    rate: (CurrencyId, CurrencyId, real, Option<Date>) -> real,
    findPeriod: Date -> Option<PeriodId>)

  /** `res.currency.compute`: the identity between equal currencies, the rate lookup otherwise. */
  function Convert(svc: Services, from: CurrencyId, to: CurrencyId, amount: real, date: Option<Date>): (r: real)
    ensures from == to ==> r == amount
  {
    if from == to then amount else svc.rate(from, to, amount, date)
  }
}
