# Fixed-asset depreciation engine

A verified Dafny model of the depreciation engine of the OpenERP/Odoo
`account_asset` module (`addons/account_asset/account_asset.py`). An asset is
bought for a purchase value and keeps a salvage value. Its cost is spread over
a **depreciation board**: a sequence of lines, each with an amount, the value
remaining after it, the value depreciated up to it and a date.

- **Posting** a line creates a journal entry with two journal items. The
  accumulated-depreciation account is credited and the expense account is
  debited.
- **Rebuilding** the board keeps the posted and cancelled lines and replaces
  the draft lines with new ones.
- The asset's **residual value** is its purchase value less the posted
  depreciation and the salvage value. An asset whose residual value reaches 0
  is closed.

The project has eight modules:

| module | file | content |
|---|---|---|
| `Wrappers` | `wrappers.dfy` | `Option` (OpenERP's `False` for an unset reference), `Result`, and `OrElse` for Python's `a or b` on references |
| `Calendar` | `calendar.dfy` | Gregorian dates, `relativedelta(months=+n)`, the ordinal day `%j`, and the board's simplified `total_days` |
| `Board` | `board.dfy` | one asset's board, pure |
| `Records` | `records.dfy` | the records: assets, lines, entries, journal items, and the services the engine calls |
| `Posting` | `posting.dfy` | `create_move_lines` and the residual value formula, pure |
| `Ledgers` | `ledger.dfy` | every public operation as a function from the tables to the new tables or an error |
| `Books` | `books.dfy` | a class holding the tables as fields |
| `Names` | `names.dfy` | category full names and asset display names |

`Board` contains:
- the residual formula;
- the starting residual and the amount to depreciate;
- the anchor date;
- the count of lines still to build;
- the amount of one line (`_compute_board_amount`);
- the board as a recursive function (`Lines`);
- two imperative methods with loops, one for the count of lines and one for the board.

`Books` performs each operation step by step, with loops where the source
has them. Each of its methods is proved to leave exactly the ledger that the
`Ledgers` function describes, and to keep the tables consistent:
- every line and journal item points at an existing asset and entry;
- journal items come in whole, mirrored entries.

A failing operation leaves the tables unchanged, as the database
transaction's rollback does.

Behaviour of the source that the model keeps on purpose:

- **`c and x or y`.** Python's `c and x or y` falls through to `y` when `x`
  is zero (`StartResidual`, `AmountToDeprAsWritten`). For a linear asset, a
  residual plus salvage of 0 gives the plain residual, and a purchase value of
  0 gives the residual value.
- **The degressive factor is used as given.** It is not divided by anything,
  so the default of 30.0 multiplies the residual by -29 at each line
  (`DegressiveGeometric`). The field's help text describes something else;
  the code is followed.
- **The anchor without prorata** is the 1st of the purchase month. The
  comment beside it says the 1st of January.
- **`total_days`** is 366 exactly when the anchor year is a multiple of 4.
  This differs from the Gregorian year in the century years that are not
  multiples of 400 (`Calendar.TotalDays`).
- **Month steps accumulate clipping.** Line dates are successive month
  additions: Jan 31 → Feb 28 → Mar 28.
- **Unreachable branches are omitted.** The `elif i == undone_dotation_number`
  branches of `_compute_board_amount` can never run, because the `if` before
  them already takes that case.
- **Division by zero.** A linear prorata board with `method_number == 0` and
  a line other than the last divides by zero. Python raises an exception and
  the transaction rolls back; this is the error `DivisionByZero`.
- **`validate` is unguarded.** It sets any asset running, whatever its state.
- **Journals can disagree.** An entry's header takes the asset's journal when
  the asset has one, but its journal items always take the category's
  (`JournalMismatch`).
- **The last depreciation date** is searched only on the asset's own
  depreciation account, never on the category's, although entries fall back
  to the category's account. An asset without an own account is listed
  under "Left out".
- **The residual value is the corrected one.** The engine uses the residual
  of the Findings table below (one journal item per entry), not the
  double-counted sum of `_amount_residual`. `AsWrittenResidualGap` states the
  difference exactly, and "Left out" names every operation it affects.
- **The linear slice is the corrected one.** A linear board without prorata
  spreads its starting residual over the lines left to build
  (`AmountToDepr`), not the whole purchase value. The second row of the
  Findings table below shows why.
- **The closing check converts at the last posting date.** `create_move`
  writes each posted line's date into its context, and the closing loop reads
  the residual under that context (`LastPostingDate`, `CloseSettled`).
- **Cancelled lines still count as posted** when the board is rebuilt
  (`CancelledStaysPosted`).
- **Category parents may form a cycle.** The depth limit of 6 is what
  guarantees that the full name terminates.

## Model

| member | source | states |
|---|---|---|
| Board.AmountResidual | addons/account_asset/account_asset.py:252 | the residual value plus the posted depreciation plus the salvage value is exactly the purchase value |
| Calendar.AddMonths | addons/account_asset/account_asset.py:221 | `relativedelta(months=+n)`: the month index advances by exactly n; the day is kept or clipped to the last day of the target month, never raised; a valid date stays valid |
| Calendar.StepMonthsAdvance | addons/account_asset/account_asset.py:206-224 | k successive period steps move the month by k periods, never raise the day, and keep the date valid |
| Calendar.TotalDays | addons/account_asset/account_asset.py:203 | `total_days` is 365 or 366, never shorter than the Gregorian year, and differs from it exactly in century years not divisible by 400 |
| Calendar.RemainingDays | addons/account_asset/account_asset.py:149 | the days left plus the ordinal day of the date make `total_days`; with the board's own `total_days` for the date's year, it lies in [0, total_days) |
| Calendar.DayOfYear | addons/account_asset/account_asset.py:149 | `%j` is between 1 and the year length: the day itself in January, the year length on December 31 |
| Calendar.DayOfYearCounts | addons/account_asset/account_asset.py:149 | `%j` counts days: January 1 is day 1, and the next day of the same year, within a month or across a month's end, is one more |
| Board.UndoneDotationNb | addons/account_asset/account_asset.py:164-174 | the while loop's count equals `UndoneCount`; without an ending date it is `method_number`, plus one under prorata |
| Board.StepsUntilCounts | addons/account_asset/account_asset.py:167-171 | the count is exact: the first n dates of the period walk are on or before the ending date, and the next one is after it |
| Board.AmountToDepr | addons/account_asset/account_asset.py:188 | `amount_to_depr` is the source's whenever nothing is posted yet, and always for degressive or prorata boards; only a linear board without prorata rebuilt after postings spreads its starting residual instead |
| Board.BoardAmount | addons/account_asset/account_asset.py:139-143 | the line numbered `undone_dotation_number` takes the whole residual left |
| Board.Prorated | addons/account_asset/account_asset.py:151 | a share `days / total_days` of a non-negative amount, with days in [0, total_days], lies between 0 and the amount |
| Board.DegressiveStepAmount | addons/account_asset/account_asset.py:154-159 | a degressive line before the last lies between 0 and residual × factor when that product is non-negative and the prorata `total_days` is the board's own |
| Board.DepreciationLines | addons/account_asset/account_asset.py:206-224 | the board loop emits exactly the specification board `Lines`: one line per sequence number after the posted ones, numbered consecutively |
| Board.LinesShape | addons/account_asset/account_asset.py:206-207 | the board has `undone - i + 1` lines numbered i, i+1, …, undone, or none when i is past undone |
| Board.LinesValidDates | addons/account_asset/account_asset.py:217-224 | every line falls on a calendar date |
| Board.LinesRunningTotals | addons/account_asset/account_asset.py:209-216 | each line's remaining value is the starting residual less the amounts up to and including it; its depreciated value is the base less the residual before it |
| Board.LinesEndAtZero | addons/account_asset/account_asset.py:139-143 | the last line leaves exactly 0, so the amounts add up to the starting residual |
| Board.LinesNonIncreasing | addons/account_asset/account_asset.py:209-216 | when no amount of a board is negative, its remaining value never increases from one line to the next and no line leaves a negative value |
| Board.LinesDates | addons/account_asset/account_asset.py:217-224 | line k is dated k period steps after the anchor |
| Board.LinearEqualSlices | addons/account_asset/account_asset.py:145 | linear without prorata: when the residual is a whole number of slices `amount_to_depr / (undone - posted)`, every line, the last included, is one slice |
| Board.LinearRemainingAt | addons/account_asset/account_asset.py:144-145 | linear without prorata, every line but the last takes the slice `amount_to_depr / (undone - posted)` and leaves the starting residual less one slice per line so far |
| Board.LinearRebuildAsWritten | addons/account_asset/account_asset.py:188 | as written, a linear board without prorata rebuilt once `_amount_residual` has subtracted a total P (twice the depreciation posted) spreads the purchase value p: the line before the last leaves p/n - P and the last takes exactly that; once P exceeds p/n the remaining value goes negative and the last line raises it back to 0 |
| Board.LinearRebuildMonotone | addons/account_asset/account_asset.py:187-188 | with the corrected slice, every line of a linear board without prorata takes the same share of the starting residual; from a non-negative residual no amount and no remaining value is negative, and the remaining value never increases |
| Board.ProrataLinearMonotone | addons/account_asset/account_asset.py:146-151 | a prorata linear board built from scratch over a positive purchase value has `method_number + 1` lines, no negative amount or remaining value, and a remaining value that never increases |
| Board.LinearBoardFromScratch | addons/account_asset/account_asset.py:187-188 | a linear board without prorata built from scratch splits the purchase value into `undone` equal amounts |
| Board.LinearScheduleConservation | addons/account_asset/account_asset.py:187-188 | the posted total plus the amounts of the rebuilt linear board is exactly the purchase value |
| Board.ProrataLinearFirstLine | addons/account_asset/account_asset.py:146-151 | a prorata linear board built from scratch has `method_number + 1` lines, and its first line is the prorated period slice |
| Board.DegressiveGeometric | addons/account_asset/account_asset.py:154-155 | degressive without prorata: every line but the last leaves the starting residual times `(1 - factor)^(k+1)` |
| Board.DegressiveMonotone | addons/account_asset/account_asset.py:154-159 | with a factor in [0, 1] and a non-negative residual, every amount is non-negative, every remaining value lies in [0, residual], and the remaining value never increases |
| Board.EndBoardWithinEndDate | addons/account_asset/account_asset.py:164-174 | under the ending-date method without prorata, every line of the board is dated on or before `method_end` |
| Posting.CreateMoveLines | addons/account_asset/account_asset.py:490-528 | two journal items, accumulated then expense. The credit of one and the debit of the other equal the amount, no side is negative, and at most one side of each is non-zero. Accounts fall back from the asset to the category, and the journal is the category's. A foreign currency shows the line amount with opposite signs |
| Posting.MoveFor | addons/account_asset/account_asset.py:557-563 | the entry header carries the posting date, period and asset name; its journal is the asset's, or the category's when the asset has none |
| Posting.EntryBalanced | addons/account_asset/account_asset.py:490-528 | every depreciation entry is balanced, and its two items mirror each other |
| Posting.JournalMismatch | addons/account_asset/account_asset.py:493 | when the asset names a journal other than its category's, every journal item's journal differs from its entry's |
| Posting.PostedTotalDoubleCounts | addons/account_asset/account_asset.py:240-244 | over whole entries, the sum of absolute balances as written is exactly twice the posted depreciation |
| Posting.PostedTotalAfterEntry | addons/account_asset/account_asset.py:564-565 | one more entry raises its asset's posted total by the amount's absolute value and leaves every other asset's total as it was |
| Posting.PostedTotalAsWritten | addons/account_asset/account_asset.py:240-244 | the as-written sum of absolute balances is never negative, and 0 for no items |
| Posting.PostedTotal | addons/account_asset/account_asset.py:240-244 | the posted depreciation, counted on the accumulated-depreciation items only, lies between 0 and the as-written sum |
| Posting.EntryPaired | addons/account_asset/account_asset.py:490-528 | the two items of one entry mirror each other: same entry and asset, opposite roles, debit against credit |
| Posting.ValueResidualAsWritten | addons/account_asset/account_asset.py:248-252 | the as-written residual plus the converted as-written sum plus the salvage value is the purchase value |
| Posting.ValueResidual | addons/account_asset/account_asset.py:248-252 | at any conversion date, the residual plus the converted posted total plus the salvage value is the purchase value |
| Posting.ResidualAfterOneEntry | addons/account_asset/account_asset.py:240-252 | after one entry of a non-zero amount, the as-written residual is lower than the corrected one by the amount |
| Ledgers.LatestDate | addons/account_asset/account_asset.py:182-197 | the first posted line in `depreciation_date desc` order has the latest date: a date some line has, and no line is later |
| Ledgers.LastDepreciationDate | addons/account_asset/account_asset.py:125-137 | the latest date of the asset's journal items on its own depreciation account (a date one of them has, and none is later), or the purchase date when there is no such item; a calendar date whenever the items' dates are |
| Ledgers.LatestEntryDate | addons/account_asset/account_asset.py:130-136 | `MAX(l.date)` over the asset's items on the account: none exactly when there is no such item, otherwise the date of one of them and no earlier than any |
| Ledgers.AnchorFor | addons/account_asset/account_asset.py:189-199 | the board starts at the last depreciation date under prorata; otherwise one period after the latest posted or cancelled line, or on the 1st of the purchase month when there is none; always a calendar date |
| Ledgers.PostedLinesMembers | addons/account_asset/account_asset.py:182 | the posted lines of an asset are exactly its done and cancelled lines |
| Ledgers.WithoutDrafts | addons/account_asset/account_asset.py:183-185 | deleting the drafts keeps exactly the lines that are not drafts of the asset |
| Ledgers.DraftRecords | addons/account_asset/account_asset.py:208-219 | one new draft record per board line, with consecutive fresh ids, the line's values and no entry |
| Ledgers.LinkMove | addons/account_asset/account_asset.py:566 | linking changes only the entry of the given line and keeps every row otherwise |
| Ledgers.DropEntries | addons/account_asset/account_asset.py:477 | the journal items left are exactly those of entries not deleted |
| Ledgers.DropAssetLines | addons/account_asset/account_asset.py:116 | the lines left are exactly those of the other assets |
| Ledgers.AsWrittenResidualGap | addons/account_asset/account_asset.py:240-252 | for an asset in the company currency, the residual as written is the model's residual less the posted depreciation once more, and reaches 0 exactly when half the depreciable value is posted |
| Ledgers.AnchorFollowsPosted | addons/account_asset/account_asset.py:189-199 | without prorata the rebuilt board starts in a later month than every posted or cancelled line |
| Ledgers.BoardFor | addons/account_asset/account_asset.py:164-224 | building a board fails only for a missing ending date or a division by zero; it fails with the ending-date error whenever the ending date is missing, and with the division error whenever a linear prorata board with no depreciation count has a line other than the last |
| Ledgers.Rebuild | addons/account_asset/account_asset.py:179-224 | an asset whose residual is 0 is left untouched; otherwise rebuilding keeps assets and entries, keeps every line that is not one of the asset's drafts, and fails exactly when building the board fails, with the board's error |
| Ledgers.RebuildAll | addons/account_asset/account_asset.py:176-225 | rebuilding several assets keeps the tables consistent and leaves assets and journal items as they were |
| Ledgers.RebuildConsistent | addons/account_asset/account_asset.py:179-224 | rebuilding one asset keeps the tables consistent |
| Ledgers.RebuildDrafts | addons/account_asset/account_asset.py:182-224 | after a rebuild, the asset's draft lines are exactly the new board; no other asset's drafts and no posted or cancelled line change |
| Ledgers.RebuildIdempotent | addons/account_asset/account_asset.py:176-225 | rebuilding a second time succeeds and reproduces the same drafts and posted lines |
| Ledgers.PostStep | addons/account_asset/account_asset.py:541-567 | posting one line keeps the assets and the rows up to their links, and every postable line stays postable |
| Ledgers.PostStepTotal | addons/account_asset/account_asset.py:553-566 | posting a line of an automatic asset adds the converted amount to that asset's posted total and nothing to any other asset's |
| Ledgers.PostStepLinks | addons/account_asset/account_asset.py:564-566 | the posted line is linked to the new entry, and no existing link is cleared |
| Ledgers.PostAllMoves | addons/account_asset/account_asset.py:541-568 | `create_move` creates one entry per line of an automatic asset, under consecutive new ids, and keeps every existing entry |
| Ledgers.PostAllLinks | addons/account_asset/account_asset.py:541-568 | after `create_move`, every given line of an automatic asset is linked to an entry |
| Ledgers.PostAllTotal | addons/account_asset/account_asset.py:541-568 | `create_move` raises each asset's posted total by exactly the converted amounts of its lines |
| Ledgers.PostAllConsistent | addons/account_asset/account_asset.py:541-568 | `create_move`'s loop keeps the tables consistent |
| Ledgers.ContextDate | addons/account_asset/account_asset.py:542-552 | a line puts a date in the context exactly when `create_move` posts it |
| Ledgers.LastGivenIsLast | addons/account_asset/account_asset.py:552 | the last date given is absent exactly when no date is given; otherwise it is one of the dates given and none is given after it |
| Ledgers.LastPostingDate | addons/account_asset/account_asset.py:541-552 | the context date left by the posting loop is absent exactly when no line is posted; otherwise it is the posting date of a posted line after which no line is posted |
| Ledgers.CreateMoveCloses | addons/account_asset/account_asset.py:569-572 | an asset touched by `create_move`, kept in the company currency, has its residual lowered by what its lines post; it is closed exactly when that brings it to 0 |
| Ledgers.CloseSettled | addons/account_asset/account_asset.py:569-572 | a touched asset whose residual, converted at the context date it is given, is 0 is closed; every other asset and every other field is unchanged |
| Ledgers.ActionDone | addons/account_asset/account_asset.py:480-488 | `action_done` fails, with the asset-not-open error, exactly when some line's asset is not running |
| Ledgers.ActionDoneMarks | addons/account_asset/account_asset.py:480-488 | after `action_done` every given line is done, and every given line of an automatic asset is linked to an entry |
| Ledgers.SetLineStateAt | addons/account_asset/account_asset.py:470-471 | writing a state gives each listed line that state and changes nothing else in it |
| Ledgers.ActionDoneConsistent | addons/account_asset/account_asset.py:480-488 | `action_done` keeps the tables consistent |
| Ledgers.SetLineState | addons/account_asset/account_asset.py:470-471 | writing a line state changes exactly the state of the given lines |
| Ledgers.ActionCancel | addons/account_asset/account_asset.py:473-478 | every given line is cancelled and unlinked; the entries linked to them are deleted, and the journal items kept are exactly those of the other entries; every other line keeps its state and loses only a link to a deleted entry; assets and counters are unchanged |
| Ledgers.ActionCancelConsistent | addons/account_asset/account_asset.py:473-478 | deleting the entries with their items leaves no dangling link and keeps whole entries |
| Ledgers.CancelledStaysPosted | addons/account_asset/account_asset.py:473-478 | a cancelled line stays in the table and counts as posted when the board is rebuilt |
| Ledgers.SetAssetState | addons/account_asset/account_asset.py:227-238 | writing an asset state changes exactly the state of the given assets |
| Ledgers.Unlink | addons/account_asset/account_asset.py:112-116 | deletion fails exactly when a given asset has journal items; otherwise exactly those assets go, with exactly their lines, and no line is added; every other asset, line, entry and journal item is unchanged |
| Ledgers.UnlinkConsistent | addons/account_asset/account_asset.py:112-116 | a permitted deletion keeps the tables consistent |
| Books.Books.Validate | addons/account_asset/account_asset.py:227-232 | the new tables are `Ledgers.Validate` of the old ones, and consistency is kept |
| Books.Books.SetToClose | addons/account_asset/account_asset.py:234-235 | the new tables are `Ledgers.SetToClose` of the old ones, and consistency is kept |
| Books.Books.SetToDraft | addons/account_asset/account_asset.py:237-238 | the new tables are `Ledgers.SetToDraft` of the old ones, and consistency is kept |
| Books.Books.Unlink | addons/account_asset/account_asset.py:112-116 | the loop over the journal items refuses exactly when a given asset has one, leaving the tables unchanged; otherwise the result is `Ledgers.Unlink`, and consistency is kept |
| Books.Books.ActionDraft | addons/account_asset/account_asset.py:470-471 | the new tables are `Ledgers.ActionDraft` of the old ones, and consistency is kept |
| Books.Books.ActionCancel | addons/account_asset/account_asset.py:473-478 | the new tables are `Ledgers.ActionCancel` of the old ones, and consistency is kept |
| Books.Books.PostLine | addons/account_asset/account_asset.py:541-567 | one loop turn leaves exactly `PostStep`, and reports the asset when it was posted for and the date it put in the context |
| Books.Books.PostLines | addons/account_asset/account_asset.py:540-568 | the loop leaves exactly `PostAll`, collects exactly the touched assets, and leaves in the context the date `LastPostingDate` names |
| Books.Books.CreateMove | addons/account_asset/account_asset.py:531-573 | the new tables are `Ledgers.CreateMove` of the old ones, and consistency is kept |
| Books.Books.ActionDone | addons/account_asset/account_asset.py:480-488 | refuses, leaving the tables unchanged, exactly when some line's asset is not running; otherwise leaves `Ledgers.ActionDone`; consistency is kept |
| Books.ScheduleBoard | addons/account_asset/account_asset.py:164-224 | the board steps of `compute_depreciation_board` (ending-date check, line count, division check, line loop) give exactly `BoardOf`, and on success the specification board `Schedule` |
| Books.Books.RebuildAsset | addons/account_asset/account_asset.py:179-224 | one asset's rebuild leaves exactly `Ledgers.Rebuild`, or raises its error |
| Books.Books.ComputeDepreciationBoard | addons/account_asset/account_asset.py:176-225 | the loop over the assets leaves exactly `RebuildAll`; the first error restores the tables; consistency is kept |
| Names.FullName | addons/account_asset/account_asset.py:43-50 | with levels left, the full name ends with the category's own name |
| Names.FullNameIsPath | addons/account_asset/account_asset.py:43-50 | the full name is the names of the path from the top category down, joined by " / ", with the levels past the limit replaced by one "..." |
| Names.CompleteName | addons/account_asset/account_asset.py:35-41 | the full name with the default depth of 6 ends with the category's own name |
| Names.DisplayName | addons/account_asset/account_asset.py:380-384 | the name can be read back from the end; with a code, the code and a space can be read back from the start; without one, the name is all there is |
| Names.NameGet | addons/account_asset/account_asset.py:373-385 | one (id, display name) pair per id, in order, and none for no ids |

## Left out

- Database access, the ORM and SQL. The tables are values: maps and
  sequences indexed by database id.
- Floating point. Amounts are exact reals. `float_compare` and
  `currency.is_zero` are exact comparisons with 0, and no amount is rounded.
- Dates are `Date` values, not `'%Y-%m-%d'` strings.
- `time.strftime` is left out. The fallback to today's date in `create_move`
  is not modelled: every line carries a date.
- The currency rate lookup (`res.currency.compute`) and the period lookup
  (`account.period.find`) are parameters, bundled as `Records.Services`.
- The `depreciation_date` key of the context is the `override` parameter.
- `_get_last_depreciation_date` collects the depreciation accounts of all the
  assets it is given. It is only ever called with one asset, so the model
  uses that asset's account alone.
- `button_cancel` in `action_cancel` is not modelled. It only checks the
  journals and resets the entry state before the entries are deleted.
- `unlink` also deletes the asset's lines through the ORM's cascade. Its
  history records are not modelled.
- The `name` fields of new lines (`'<asset>/<seq>'`), of journal items (the
  "Acumulated/Expense Depreciation" labels) and of entries (`"/"`) are not
  modelled.
- `sign` in `create_move` is not modelled. It is computed and never used.
- Terminates: ending-date boards with a non-positive `method_period` are
  excluded by a precondition. There the source's counting loop never ends
  when the anchor is on or before `method_end`; otherwise it counts no line
  (one under prorata). Neither case is modelled.
- The onchange handlers, `_check_recursion`, `_check_prorata`,
  `_entry_count`, `_get_period`, `create`, `open_entries`,
  `_compute_entries` and the history model are outside the engine modelled
  here.
- Books.Books.CreateMove: does not return the list of created entry ids.
  `Ledgers.PostAllMoves` characterises them instead: one new id per line of
  an automatic asset, consecutive from the next free id.
- Ledgers.CreateMoveCloses: states the residual drop only for assets kept in
  the company currency. For a foreign currency, the posted total goes through
  the rate lookup, which is a parameter with no laws.
- Board.DegressiveMonotone: is stated only for factors in [0, 1]. With the
  default 30.0 the residual alternates in sign, which `DegressiveGeometric`
  states exactly.
- ValueResidualOf: reads the residual at today's rate, as
  `compute_depreciation_board` does with a context that has no date. It
  uses the corrected residual of the Findings table (one journal item per
  entry), not the double-counted `_amount_residual`. For
  an asset in the company currency, the residual as written is lower by the
  posted depreciation, and reaches 0 once half the depreciable value is
  posted (`AsWrittenResidualGap`).
- BoardFor: starts the board from the corrected residual, so its starting
  residual and amount to depreciate are not the source's once anything is
  posted. A linear board without prorata also takes the corrected slice of
  the second Findings row.
- Rebuild: skips an asset, and starts its board, by the corrected residual,
  with the corrected linear slice.
- RebuildAll: inherits the corrected residual and linear slice of Rebuild.
- CloseSettled: closes a touched asset when the corrected residual is 0. The
  source closes it when the double-counted one is, at half the depreciable
  value.
- CreateMoveCloses: states closing at the corrected residual.
- CreateMove: its closing step is CloseSettled, at the corrected residual.
- ActionDone: posts through CreateMove, so it closes at the corrected residual.
- RebuildAsset: equals Rebuild, so it starts from the corrected residual
  and uses the corrected linear slice.
- ComputeDepreciationBoard: equals RebuildAll, so it starts from the
  corrected residual and uses the corrected linear slice.
- LastDepreciationDate: for an asset without its own depreciation account,
  the model takes the purchase date (the `COALESCE` fallback). The source
  then passes `(False,)` as the account list, and the database most likely
  rejects comparing an account id with `false` (not executed).
- Consistent: takes for granted that every journal item that carries an asset belongs to a
  whole two-item depreciation entry. The source lets items of other origin
  carry the asset while it is a draft (`account_move_line_ids` is editable
  then), and these are not modelled.
- Ids handed out by the tables are not proved unique. `Consistent` bounds
  entry ids below the next free id but does not constrain line ids.

## Findings

| source | as written | input that shows it | evidently intended | confidence | as-written member | corrected member |
|---|---|---|---|---|---|---|
| addons/account_asset/account_asset.py:240-252 | `_amount_residual` sums `abs(debit - credit)` over every journal item of the asset. Each depreciation entry has two items, both carrying the asset, so every posting is counted twice | one posted entry of amount a, with purchase value p, salvage value s and the company currency: the as-written residual is p - s - 2a instead of p - s - a | sum only the accumulated-depreciation items, one per entry, so the residual drops by what was posted | medium, not executed | Posting.PostedTotalAsWritten, Posting.ResidualAfterOneEntry | Posting.PostedTotal, Posting.PostedTotalDoubleCounts |
| addons/account_asset/account_asset.py:188 | `amount_to_depr` is the whole purchase value for a linear asset, even when the board is rebuilt after postings, while `residual_amount` is only what is left | purchase value 600, no salvage, 6 periods, the first line of 100 posted: `_amount_residual` subtracts P = 200 (both items of the entry), so the residual is 400 and the slice 600 / 5 = 120; the lines left are 120, 120, 120, 120 and -80, and the remaining value goes 280, 160, 40, -80 before the last line raises it back to 0 | spread what is left over the lines left: `residual / (undone - posted)`, so that the remaining value never increases | medium, not executed | Board.LinearRebuildAsWritten | Board.AmountToDepr, Board.LinearRebuildMonotone |
