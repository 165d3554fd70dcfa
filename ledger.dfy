/**
 * The tables the depreciation engine works on, as one value: assets,
 * depreciation lines, journal entries and their move lines. Each public
 * operation of the engine is a function from a ledger to the ledger it
 * leaves behind (or the error it raises, in which case the transaction is
 * rolled back and nothing changes).
 */
module Ledgers {
  import opened Wrappers
  import opened Calendar
  import opened Board
  import opened Records
  import opened Posting

  datatype Ledger = Ledger(
    assets: map<AssetId, Asset>,
    lines: seq<Line>,
    moves: map<MoveId, Move>,
    moveLines: seq<MoveLine>,
    nextLine: nat,
    nextMove: nat)

  /** The errors the engine raises. */
  datatype Failure =
    | AssetNotOpen      // approving a line of an asset that is not running
    | HasPostedEntries  // deleting an asset that has journal items
    | NoEndDate         // counting by ending date without an ending date
    | DivisionByZero    // linear prorata board with no depreciation count

  /** Dates are calendar dates; the only asset data the engine relies on. */
  predicate WellFormedAsset(a: Asset) {
    ValidDate(a.terms.purchaseDate) && (a.terms.methodEnd.Some? ==> ValidDate(a.terms.methodEnd.value))
  }

  predicate LineOk(l: Ledger, x: Line) {
    x.asset in l.assets && x.id < l.nextLine && ValidDate(x.values.date)
    && (x.move.Some? ==> x.move.value in l.moves)
  }

  predicate MoveLineOk(l: Ledger, ml: MoveLine) {
    ml.move in l.moves && ml.asset in l.assets && ValidDate(ml.date)
  }

  /**
   * Referential integrity of the tables: every line and journal item points
   * at an existing asset and entry, ids stay below the next id to hand out,
   * and journal items come in whole depreciation entries.
   */
  predicate Consistent(l: Ledger) {
    (forall id | id in l.assets :: WellFormedAsset(l.assets[id]))
    && (forall x <- l.lines :: LineOk(l, x))
    && (forall m | m in l.moves :: m < l.nextMove)
    && (forall ml <- l.moveLines :: MoveLineOk(l, ml))
    && Paired(l.moveLines)
  }

  // ---------------------------------------------------------------- lookups

  /** Where the line with id `lid` sits in the table: the first such row, or the table's length. */
  function FirstIndex(lines: seq<Line>, lid: LineId): (k: nat)
    ensures k <= |lines|
    ensures forall j :: 0 <= j < k ==> lines[j].id != lid
    ensures k < |lines| ==> lines[k].id == lid
  {
    if lines == [] then 0
    else if lines[0].id == lid then 0
    else 1 + FirstIndex(lines[1..], lid)
  }

  /** `browse(lid)`: the line with that id. */
  function LineAt(lines: seq<Line>, lid: LineId): (r: Option<Line>)
    ensures r.Some? ==> r.value in lines && r.value.id == lid
    ensures r.None? ==> forall x <- lines :: x.id != lid
  {
    var k := FirstIndex(lines, lid);
    if k < |lines| then Some(lines[k]) else None
  }

  /** Two line tables with the same rows up to their state and entry links. */
  predicate SameRows(a: seq<Line>, b: seq<Line>) {
    |a| == |b|
    && forall k :: 0 <= k < |a| ==> a[k].id == b[k].id && a[k].asset == b[k].asset && a[k].values == b[k].values
                                    && a[k].period == b[k].period
  }

  /** Tables with the same ids row by row find a line at the same row. */
  lemma {:induction false} SameRowsFirstIndex(a: seq<Line>, b: seq<Line>, lid: LineId)
    requires SameRows(a, b)
    ensures FirstIndex(a, lid) == FirstIndex(b, lid)
  {
  }

  lemma {:induction false} SameRowsLineAt(a: seq<Line>, b: seq<Line>, lid: LineId)
    requires SameRows(a, b)
    ensures LineAt(a, lid).Some? <==> LineAt(b, lid).Some?
    ensures LineAt(a, lid).Some? ==>
      LineAt(a, lid).value.asset == LineAt(b, lid).value.asset
      && LineAt(a, lid).value.values == LineAt(b, lid).value.values
      && LineAt(a, lid).value.period == LineAt(b, lid).value.period
  {
    SameRowsFirstIndex(a, b, lid);
  }

  /** `search([('asset_id', '=', id), ('state', 'in', ['done', 'cancel'])])`. */
  function PostedLines(lines: seq<Line>, id: AssetId): seq<Line> {
    if lines == [] then []
    else (if lines[0].asset == id && lines[0].state != LineState.Draft then [lines[0]] else [])
         + PostedLines(lines[1..], id)
  }

  /** The posted lines of an asset are exactly its done and cancelled lines. */
  lemma {:induction false} PostedLinesMembers(lines: seq<Line>, id: AssetId)
    ensures forall x <- PostedLines(lines, id) :: x in lines && x.asset == id && x.state != LineState.Draft
    ensures forall x <- lines :: x.asset == id && x.state != LineState.Draft ==> x in PostedLines(lines, id)
    decreases |lines|
  {
    if lines != [] {
      PostedLinesMembers(lines[1..], id);
      assert forall x <- lines :: x == lines[0] || x in lines[1..];
    }
  }

  /** The date of the first posted line in `depreciation_date desc` order: the latest one. */
  function LatestDate(ls: seq<Line>): (d: Date)
    requires ls != []
    ensures exists x <- ls :: x.values.date == d
    ensures forall x <- ls :: DateLe(x.values.date, d)
  {
    if |ls| == 1 then ls[0].values.date
    else
      var rest := LatestDate(ls[1..]);
      assert forall x <- ls :: x == ls[0] || x in ls[1..];
      if DateLe(rest, ls[0].values.date) then ls[0].values.date else rest
  }

  /** The latest date among an asset's journal items on the given account, if it has any. */
  function LatestEntryDate(mls: seq<MoveLine>, id: AssetId, account: AccountId): (r: Option<Date>)
    ensures r.None? <==> forall ml <- mls :: !(ml.asset == id && ml.account == Some(account))
    ensures r.Some? ==> exists ml <- mls :: ml.asset == id && ml.account == Some(account) && ml.date == r.value
    ensures r.Some? ==> forall ml <- mls :: ml.asset == id && ml.account == Some(account) ==> DateLe(ml.date, r.value)
  {
    if mls == [] then None
    else
      var rest := LatestEntryDate(mls[1..], id, account);
      assert forall ml <- mls :: ml == mls[0] || ml in mls[1..];
      if !(mls[0].asset == id && mls[0].account == Some(account)) then rest
      else if rest.Some? && !DateLe(rest.value, mls[0].date) then rest
      else Some(mls[0].date)
  }

  /**
   * `_get_last_depreciation_date`: the latest date of the asset's journal
   * items on the asset's own depreciation account, or its purchase date when
   * there are none. An asset without its own depreciation account matches no
   * item, even though its entries are posted on the category's account.
   */
  function LastDepreciationDate(a: Asset, mls: seq<MoveLine>, id: AssetId): (d: Date)
    ensures a.accounts.depreciation.None? ==> d == a.terms.purchaseDate
    ensures a.accounts.depreciation.Some? && (forall ml <- mls :: !(ml.asset == id && ml.account == a.accounts.depreciation))
            ==> d == a.terms.purchaseDate
    ensures a.accounts.depreciation.Some? && (exists ml <- mls :: ml.asset == id && ml.account == a.accounts.depreciation)
            ==> (exists ml <- mls :: ml.asset == id && ml.account == a.accounts.depreciation && ml.date == d)
                && forall ml <- mls :: ml.asset == id && ml.account == a.accounts.depreciation ==> DateLe(ml.date, d)
    ensures (forall ml <- mls :: ValidDate(ml.date)) && ValidDate(a.terms.purchaseDate) ==> ValidDate(d)
  {
    match a.accounts.depreciation
    case None => a.terms.purchaseDate
    case Some(account) =>
      match LatestEntryDate(mls, id, account)
      case None => a.terms.purchaseDate
      case Some(d) => d
  }

  // ---------------------------------------------------------- the board

  /**
   * `value_residual`, computed from the ledger's journal items, as
   * `compute_depreciation_board` reads it: at today's rate, the caller's
   * context carrying no date.
   */
  function ValueResidualOf(l: Ledger, id: AssetId, svc: Services): real
    requires id in l.assets
  {
    ValueResidual(l.assets[id], l.moveLines, id, svc, None)
  }

  /** The date the board of an asset starts from, as `compute_depreciation_board` picks it. */
  function AnchorFor(l: Ledger, id: AssetId): (d: Date)
    requires Consistent(l) && id in l.assets
    ensures ValidDate(d)
    ensures l.assets[id].terms.prorata ==> d == LastDepreciationDate(l.assets[id], l.moveLines, id)
    ensures !l.assets[id].terms.prorata && PostedLines(l.lines, id) != [] ==>
      d == AddMonths(LatestDate(PostedLines(l.lines, id)), l.assets[id].terms.methodPeriod)
    ensures !l.assets[id].terms.prorata && PostedLines(l.lines, id) == [] ==>
      d == Date(l.assets[id].terms.purchaseDate.year, l.assets[id].terms.purchaseDate.month, 1)
  {
    var a := l.assets[id];
    var posted := PostedLines(l.lines, id);
    assert forall ml <- l.moveLines :: ValidDate(ml.date) by {
      forall ml <- l.moveLines ensures ValidDate(ml.date) { assert MoveLineOk(l, ml); }
    }
    var last := LastDepreciationDate(a, l.moveLines, id);
    var latest := if posted == [] then a.terms.purchaseDate else LatestDate(posted);
    assert ValidDate(latest) by {
      if posted != [] {
        PostedLinesMembers(l.lines, id);
        var x :| x in posted && x.values.date == latest;
        assert LineOk(l, x);
      }
    }
    Anchor(a.terms, |posted|, latest, last)
  }

  /** What rebuilding a board demands of its caller: counting by ending date never stalls. */
  predicate Terminates(a: Asset) {
    a.terms.methodTime == End ==> a.terms.methodPeriod > 0
  }

  /** The new draft board of an asset, or the error building it raises. */
  function BoardFor(l: Ledger, id: AssetId, svc: Services): (r: Result<seq<DepLine>, Failure>)
    requires Consistent(l) && id in l.assets && Terminates(l.assets[id])
    ensures r.Err? ==> r.error == NoEndDate || r.error == DivisionByZero
    ensures var t := l.assets[id].terms;
      t.methodTime == End && t.methodEnd.None? ==> r == Err(NoEndDate)
    ensures var t := l.assets[id].terms; var anchor := AnchorFor(l, id);
      !(t.methodTime == End && t.methodEnd.None?)
      && DividesByZero(SetupFor(t, ValueResidualOf(l, id, svc), |PostedLines(l.lines, id)|, UndoneCount(t, anchor), anchor))
      ==> r == Err(DivisionByZero)
  {
    BoardOf(l.assets[id].terms, ValueResidualOf(l, id, svc), |PostedLines(l.lines, id)|, AnchorFor(l, id))
  }

  /**
   * The board `compute_depreciation_board` builds from an asset's terms, its
   * residual value, its number of posted lines and its anchor date, or the
   * error it raises.
   */
  function BoardOf(t: Terms, valueResidual: real, posted: nat, anchor: Date): Result<seq<DepLine>, Failure>
    requires ValidDate(anchor) && (t.methodTime == End ==> t.methodPeriod > 0)
    requires t.methodEnd.Some? ==> ValidDate(t.methodEnd.value)
  {
    if t.methodTime == End && t.methodEnd.None? then Err(NoEndDate)
    else
      var undone := UndoneCount(t, anchor);
      if DividesByZero(SetupFor(t, valueResidual, posted, undone, anchor)) then Err(DivisionByZero)
      else Ok(Schedule(t, valueResidual, posted, undone, anchor))
  }

  /** The asset's lines other than its drafts, in table order. */
  function WithoutDrafts(lines: seq<Line>, id: AssetId): (r: seq<Line>)
    ensures forall x <- r :: x in lines && !(x.asset == id && x.state == LineState.Draft)
    ensures forall x <- lines :: !(x.asset == id && x.state == LineState.Draft) ==> x in r
  {
    if lines == [] then []
    else (if lines[0].asset == id && lines[0].state == LineState.Draft then [] else [lines[0]])
         + WithoutDrafts(lines[1..], id)
  }

  /** `depreciation_lin_obj.create` for each line of a board: fresh ids from `next`, draft, no entry. */
  function DraftRecords(id: AssetId, next: nat, board: seq<DepLine>): (r: seq<Line>)
    ensures |r| == |board|
    ensures forall k :: 0 <= k < |r| ==> r[k] == Line(next + k, id, board[k], LineState.Draft, None, None)
  {
    seq(|board|, k requires 0 <= k < |board| => Line(next + k, id, board[k], LineState.Draft, None, None))
  }

  /** The values of an asset's draft lines, in table order. */
  function DraftValues(lines: seq<Line>, id: AssetId): seq<DepLine> {
    if lines == [] then []
    else (if lines[0].asset == id && lines[0].state == LineState.Draft then [lines[0].values] else [])
         + DraftValues(lines[1..], id)
  }

  /**
   * `compute_depreciation_board` for one asset: nothing to do when its
   * residual value is 0; otherwise its draft lines are replaced by the new
   * board. Posted and cancelled lines, other assets and the journal are left
   * as they are.
   */
  function Rebuild(l: Ledger, id: AssetId, svc: Services): (r: Result<Ledger, Failure>)
    requires Consistent(l) && id in l.assets && Terminates(l.assets[id])
    ensures r.Ok? ==> r.value.assets == l.assets && r.value.moves == l.moves && r.value.moveLines == l.moveLines
    ensures r.Ok? ==> forall x <- l.lines :: !(x.asset == id && x.state == LineState.Draft) ==> x in r.value.lines
    ensures r.Err? ==> ValueResidualOf(l, id, svc) != 0.0 && BoardFor(l, id, svc).Err?
    ensures ValueResidualOf(l, id, svc) != 0.0 && BoardFor(l, id, svc).Err? ==> r == Err(BoardFor(l, id, svc).error)
    ensures ValueResidualOf(l, id, svc) == 0.0 ==> r == Ok(l)
  {
    if ValueResidualOf(l, id, svc) == 0.0 then Ok(l)
    else
      match BoardFor(l, id, svc)
      case Err(e) => Err(e)
      case Ok(board) =>
        Ok(l.(lines := WithoutDrafts(l.lines, id) + DraftRecords(id, l.nextLine, board),
              nextLine := l.nextLine + |board|))
  }

  /** `compute_depreciation_board` over several assets, in order; the first error undoes all. */
  function RebuildAll(l: Ledger, ids: seq<AssetId>, svc: Services): (r: Result<Ledger, Failure>)
    requires Consistent(l) && forall id <- ids :: id in l.assets && Terminates(l.assets[id])
    ensures r.Ok? ==> Consistent(r.value) && r.value.assets == l.assets && r.value.moveLines == l.moveLines
    decreases |ids|
  {
    if ids == [] then Ok(l)
    else
      match Rebuild(l, ids[0], svc)
      case Err(e) => Err(e)
      case Ok(next) =>
        RebuildConsistent(l, ids[0], svc);
        RebuildAll(next, ids[1..], svc)
  }

  // ------------------------------------------------------------- posting

  /** A line that can be posted: it exists and its asset exists. */
  predicate Postable(l: Ledger, lid: LineId) {
    LineAt(l.lines, lid).Some? && LineAt(l.lines, lid).value.asset in l.assets
  }

  /** The asset of a line. */
  function AssetOf(l: Ledger, lid: LineId): (id: AssetId)
    requires Postable(l, lid)
    ensures id in l.assets
  {
    LineAt(l.lines, lid).value.asset
  }

  /** The move a line is linked to after `write({'move_id': m})`. */
  function LinkMove(lines: seq<Line>, lid: LineId, m: MoveId): (r: seq<Line>)
    ensures SameRows(lines, r)
    ensures forall k :: 0 <= k < |r| ==> r[k].state == lines[k].state
    ensures forall k :: 0 <= k < |r| ==> r[k].move == if lines[k].id == lid then Some(m) else lines[k].move
  {
    seq(|lines|, k requires 0 <= k < |lines| => if lines[k].id == lid then lines[k].(move := Some(m)) else lines[k])
  }

  /** The date an entry is posted at: the `depreciation_date` of the context, or the line's date. */
  function PostingDate(x: Line, override: Option<Date>): Date {
    if override.Some? then override.value else x.values.date
  }

  /** The period of an entry: the line's, or the one containing the posting date. */
  function PostingPeriod(x: Line, override: Option<Date>, svc: Services): Option<PeriodId> {
    if x.period.Some? then x.period else svc.findPeriod(PostingDate(x, override))
  }

  /** The line amount converted into the company currency at the posting date. */
  function PostingAmount(a: Asset, x: Line, override: Option<Date>, svc: Services): real {
    Convert(svc, a.currency, a.companyCurrency, x.values.amount, Some(PostingDate(x, override)))
  }

  /**
   * One iteration of `create_move`: a line of an asset that is not valued
   * automatically is skipped; otherwise a new entry is created with its two
   * journal items, and the line is linked to it.
   */
  function PostStep(l: Ledger, lid: LineId, override: Option<Date>, svc: Services): (r: Ledger)
    requires Postable(l, lid)
    ensures r.assets == l.assets
    ensures SameRows(l.lines, r.lines)
    ensures forall q :: Postable(l, q) ==> Postable(r, q)
  {
    var x := LineAt(l.lines, lid).value;
    var a := l.assets[x.asset];
    var r :=
      if a.valuation != Auto then l
      else
        var date := PostingDate(x, override);
        var period := PostingPeriod(x, override, svc);
        var m := l.nextMove;
        l.(moves := l.moves[m := MoveFor(a, date, period)],
           moveLines := l.moveLines
             + CreateMoveLines(m, x.asset, a, x.values.amount, PostingAmount(a, x, override, svc), date, period),
           lines := LinkMove(l.lines, lid, m),
           nextMove := m + 1);
    assert forall q :: Postable(l, q) ==> Postable(r, q) by {
      forall q | Postable(l, q) ensures Postable(r, q) { SameRowsLineAt(l.lines, r.lines, q); }
    }
    r
  }

  /** The loop of `create_move` over the lines, in order. */
  function PostAll(l: Ledger, ids: seq<LineId>, override: Option<Date>, svc: Services): (r: Ledger)
    requires forall lid <- ids :: Postable(l, lid)
    ensures r.assets == l.assets
    ensures SameRows(l.lines, r.lines)
    decreases |ids|
  {
    if ids == [] then l
    else
      var next := PostStep(l, ids[0], override, svc);
      assert forall lid <- ids[1..] :: lid in ids;
      PostAll(next, ids[1..], override, svc)
  }

  /** The assets of the lines that `create_move` posts. */
  function Touched(l: Ledger, ids: seq<LineId>): set<AssetId>
    requires forall lid <- ids :: Postable(l, lid)
  {
    set lid <- ids | Postable(l, lid) && l.assets[AssetOf(l, lid)].valuation == Auto :: AssetOf(l, lid)
  }

  /** Whether `create_move` posts a line: its asset is valued automatically. */
  predicate Posts(l: Ledger, lid: LineId)
    requires Postable(l, lid)
  {
    l.assets[AssetOf(l, lid)].valuation == Auto
  }

  /** The date `create_move` puts in the context for a line: its posting date, when it posts it. */
  function ContextDate(l: Ledger, lid: LineId, override: Option<Date>): (r: Option<Date>)
    requires Postable(l, lid)
    ensures r.Some? <==> Posts(l, lid)
  {
    if Posts(l, lid) then Some(PostingDate(LineAt(l.lines, lid).value, override)) else None
  }

  /** Two ledgers with the same assets and the same rows give a line the same context date. */
  lemma {:induction false} ContextDateSameRows(a: Ledger, b: Ledger, lid: LineId, override: Option<Date>)
    requires a.assets == b.assets && SameRows(a.lines, b.lines) && Postable(a, lid)
    ensures Postable(b, lid) && ContextDate(b, lid, override) == ContextDate(a, lid, override)
  {
    SameRowsLineAt(a.lines, b.lines, lid);
  }

  /** The dates `create_move` puts in the context, line by line. */
  function ContextDates(l: Ledger, ids: seq<LineId>, override: Option<Date>): (r: seq<Option<Date>>)
    requires forall lid <- ids :: Postable(l, lid)
    ensures |r| == |ids| && forall k :: 0 <= k < |ids| ==> r[k] == ContextDate(l, ids[k], override)
  {
    seq(|ids|, k requires 0 <= k < |ids| => ContextDate(l, ids[k], override))
  }

  /** The last date given in a sequence of optional dates: the last one present, or None. */
  function LastGiven(ds: seq<Option<Date>>): Option<Date>
  {
    if ds == [] then None
    else if ds[|ds| - 1].Some? then ds[|ds| - 1]
    else LastGiven(ds[..|ds| - 1])
  }

  /** LastGiven is None exactly when no date is given, and otherwise the last one given. */
  lemma {:induction false} LastGivenIsLast(ds: seq<Option<Date>>)
    ensures LastGiven(ds).None? <==> forall k :: 0 <= k < |ds| ==> ds[k].None?
    ensures LastGiven(ds).Some? ==>
      exists k :: 0 <= k < |ds| && ds[k] == LastGiven(ds) && forall j :: k < j < |ds| ==> ds[j].None?
  {
    if ds != [] && ds[|ds| - 1].None? {
      var front := ds[..|ds| - 1];
      LastGivenIsLast(front);
      assert forall k :: 0 <= k < |front| ==> front[k] == ds[k];
      if LastGiven(ds).Some? {
        var k :| 0 <= k < |front| && front[k] == LastGiven(front) && forall j :: k < j < |front| ==> front[j].None?;
        assert forall j :: k < j < |ds| ==> ds[j].None?;
      }
    }
  }

  /**
   * `context['date']` once the loop of `create_move` is over: the posting
   * date of the last line it posted, or None when it posted none.
   */
  function LastPostingDate(l: Ledger, ids: seq<LineId>, override: Option<Date>): (r: Option<Date>)
    requires forall lid <- ids :: Postable(l, lid)
    ensures r.None? <==> forall k :: 0 <= k < |ids| ==> !Posts(l, ids[k])
    ensures r.Some? ==>
      exists k :: 0 <= k < |ids| && Posts(l, ids[k]) && r == ContextDate(l, ids[k], override)
        && forall j :: k < j < |ids| ==> !Posts(l, ids[j])
  {
    LastGivenIsLast(ContextDates(l, ids, override));
    LastGiven(ContextDates(l, ids, override))
  }

  /**
   * The last loop of `create_move`: a touched asset whose residual value,
   * read at the rate of the context's date `at`, is now 0 is closed.
   */
  function CloseSettled(l: Ledger, touched: set<AssetId>, at: Option<Date>, svc: Services): (r: Ledger)
    ensures r.assets.Keys == l.assets.Keys
    ensures forall id | id in l.assets ::
      r.assets[id].state
        == (if id in touched && ValueResidual(l.assets[id], l.moveLines, id, svc, at) == 0.0 then Close
            else l.assets[id].state)
      && r.assets[id] == l.assets[id].(state := r.assets[id].state)
    ensures r == l.(assets := r.assets)
  {
    l.(assets := map id | id in l.assets ::
         if id in touched && ValueResidual(l.assets[id], l.moveLines, id, svc, at) == 0.0 then l.assets[id].(state := Close)
         else l.assets[id])
  }

  /** `create_move`: the posting loop, then the closing loop under the date the posting left in the context. */
  function CreateMove(l: Ledger, ids: seq<LineId>, override: Option<Date>, svc: Services): Ledger
    requires forall lid <- ids :: Postable(l, lid)
  {
    CloseSettled(PostAll(l, ids, override, svc), Touched(l, ids), LastPostingDate(l, ids, override), svc)
  }

  /** `write({'state': s})` on the lines with the given ids. */
  function SetLineState(l: Ledger, ids: set<LineId>, s: LineState): (r: Ledger)
    ensures SameRows(l.lines, r.lines)
    ensures forall k :: 0 <= k < |r.lines| ==>
      r.lines[k] == if l.lines[k].id in ids then l.lines[k].(state := s) else l.lines[k]
    ensures r == l.(lines := r.lines)
  {
    l.(lines := seq(|l.lines|, k requires 0 <= k < |l.lines| =>
         if l.lines[k].id in ids then l.lines[k].(state := s) else l.lines[k]))
  }

  /** Some line among `ids` belongs to an asset that is not running. */
  predicate SomeAssetNotOpen(l: Ledger, ids: seq<LineId>)
    requires forall lid <- ids :: Postable(l, lid)
  {
    exists lid <- ids :: Postable(l, lid) && l.assets[AssetOf(l, lid)].state != Open
  }

  /**
   * `action_done`: refuses unless every line's asset is running; otherwise
   * posts the lines and marks them done.
   */
  function ActionDone(l: Ledger, ids: seq<LineId>, override: Option<Date>, svc: Services): (r: Result<Ledger, Failure>)
    requires forall lid <- ids :: Postable(l, lid)
    ensures r.Err? <==> SomeAssetNotOpen(l, ids)
    ensures r.Err? ==> r.error == AssetNotOpen
  {
    if SomeAssetNotOpen(l, ids) then Err(AssetNotOpen)
    else Ok(SetLineState(CreateMove(l, ids, override, svc), (set lid <- ids), LineState.Done))
  }

  /** `action_draft`. */
  function ActionDraft(l: Ledger, ids: set<LineId>): Ledger {
    SetLineState(l, ids, LineState.Draft)
  }

  /** The entries linked to the given lines. */
  function LinkedMoves(lines: seq<Line>, ids: set<LineId>): set<MoveId> {
    set x <- lines | x.id in ids && x.move.Some? :: x.move.value
  }

  /** The journal items of the entries not in `ms`. */
  function DropEntries(mls: seq<MoveLine>, ms: set<MoveId>): (r: seq<MoveLine>)
    ensures forall ml <- r :: ml in mls && ml.move !in ms
    ensures forall ml <- mls :: ml.move !in ms ==> ml in r
  {
    if mls == [] then []
    else (if mls[0].move in ms then [] else [mls[0]]) + DropEntries(mls[1..], ms)
  }

  /** A line after its entry is deleted (the link is cleared) and the cancel is written. */
  function CancelRow(x: Line, ids: set<LineId>, ms: set<MoveId>): Line {
    var unlinked := if x.move.Some? && x.move.value in ms then x.(move := None) else x;
    if x.id in ids then unlinked.(state := Cancel) else unlinked
  }

  /**
   * `action_cancel`: the entries of the lines are deleted with their journal
   * items, which clears every link to them, and the lines are cancelled.
   */
  function ActionCancel(l: Ledger, ids: set<LineId>): (r: Ledger)
    ensures SameRows(l.lines, r.lines)
    ensures forall k :: 0 <= k < |r.lines| && l.lines[k].id in ids ==>
      r.lines[k].state == Cancel && r.lines[k].move.None?
    ensures forall ml <- r.moveLines :: ml in l.moveLines && ml.move !in LinkedMoves(l.lines, ids)
    ensures forall ml <- l.moveLines :: ml.move !in LinkedMoves(l.lines, ids) ==> ml in r.moveLines
    ensures r.moves == l.moves - LinkedMoves(l.lines, ids)
    ensures forall k :: 0 <= k < |r.lines| && l.lines[k].id !in ids ==>
      r.lines[k].state == l.lines[k].state
      && r.lines[k].move == if l.lines[k].move.Some? && l.lines[k].move.value in LinkedMoves(l.lines, ids) then None
                            else l.lines[k].move
    ensures r == l.(moves := r.moves, moveLines := r.moveLines, lines := r.lines)
  {
    var ms := LinkedMoves(l.lines, ids);
    var r := l.(moves := l.moves - ms, moveLines := DropEntries(l.moveLines, ms),
                lines := seq(|l.lines|, k requires 0 <= k < |l.lines| => CancelRow(l.lines[k], ids, ms)));
    assert forall k :: 0 <= k < |r.lines| && l.lines[k].id in ids ==> r.lines[k].move.None? by {
      forall k | 0 <= k < |r.lines| && l.lines[k].id in ids ensures r.lines[k].move.None? {
        var x := l.lines[k];
        if x.move.Some? { assert x.move.value in ms; }
      }
    }
    r
  }

  // ------------------------------------------------------- asset records

  /** `write({'state': s})` on the given assets. */
  function SetAssetState(l: Ledger, ids: set<AssetId>, s: AssetState): (r: Ledger)
    ensures r.assets.Keys == l.assets.Keys
    ensures forall id | id in r.assets :: r.assets[id] == if id in ids then l.assets[id].(state := s) else l.assets[id]
    ensures r == l.(assets := r.assets)
  {
    l.(assets := map id | id in l.assets :: if id in ids then l.assets[id].(state := s) else l.assets[id])
  }

  /** `validate`: the assets are running, whatever state they were in. */
  function Validate(l: Ledger, ids: set<AssetId>): Ledger {
    SetAssetState(l, ids, Open)
  }

  /** `set_to_close`. */
  function SetToClose(l: Ledger, ids: set<AssetId>): Ledger {
    SetAssetState(l, ids, Close)
  }

  /** `set_to_draft`. */
  function SetToDraft(l: Ledger, ids: set<AssetId>): Ledger {
    SetAssetState(l, ids, AssetState.Draft)
  }

  /** The lines of assets other than the given ones: the rest go with their asset. */
  function DropAssetLines(lines: seq<Line>, ids: set<AssetId>): (r: seq<Line>)
    ensures forall x <- r :: x in lines && x.asset !in ids
    ensures forall x <- lines :: x.asset !in ids ==> x in r
  {
    if lines == [] then []
    else (if lines[0].asset in ids then [] else [lines[0]]) + DropAssetLines(lines[1..], ids)
  }

  /** Some given asset has journal items. */
  predicate HasEntries(l: Ledger, ids: set<AssetId>) {
    exists ml <- l.moveLines :: ml.asset in ids
  }

  /**
   * `unlink`: refused when any of the assets has journal items; otherwise
   * the assets are deleted and their depreciation lines with them.
   */
  function Unlink(l: Ledger, ids: set<AssetId>): (r: Result<Ledger, Failure>)
    ensures r.Err? <==> HasEntries(l, ids)
    ensures r.Err? ==> r.error == HasPostedEntries
    ensures r.Ok? ==> r.value.assets.Keys == l.assets.Keys - ids && r.value.moveLines == l.moveLines
    ensures r.Ok? ==> forall x <- r.value.lines :: x.asset !in ids && x in l.lines
    ensures r.Ok? ==> forall x <- l.lines :: x.asset !in ids ==> x in r.value.lines
    ensures r.Ok? ==> forall id | id in r.value.assets :: r.value.assets[id] == l.assets[id]
    ensures r.Ok? ==> r.value == l.(assets := r.value.assets, lines := r.value.lines)
  {
    if HasEntries(l, ids) then Err(HasPostedEntries)
    else Ok(l.(assets := l.assets - ids, lines := DropAssetLines(l.lines, ids)))
  }

  // --------------------------------------------------------------- lemmas

  /** Rebuilding keeps the tables consistent. */
  lemma {:induction false} RebuildConsistent(l: Ledger, id: AssetId, svc: Services)
    requires Consistent(l) && id in l.assets && Terminates(l.assets[id])
    ensures Rebuild(l, id, svc).Ok? ==> Consistent(Rebuild(l, id, svc).value)
  {
    var r := Rebuild(l, id, svc);
    if r.Ok? && ValueResidualOf(l, id, svc) != 0.0 {
      var board := BoardFor(l, id, svc).value;
      BoardDates(l, id, svc);
      var added := DraftRecords(id, l.nextLine, board);
      var n := r.value;
      assert n.lines == WithoutDrafts(l.lines, id) + added;
      forall x <- n.lines ensures LineOk(n, x) {
        if x in WithoutDrafts(l.lines, id) {
          assert LineOk(l, x);
        } else {
          var k :| 0 <= k < |added| && added[k] == x;
          assert board[k] in board;
        }
      }
      forall ml <- n.moveLines ensures MoveLineOk(n, ml) { assert MoveLineOk(l, ml); }
    }
  }

  /** Every line of a new board falls on a calendar date. */
  lemma {:induction false} BoardDates(l: Ledger, id: AssetId, svc: Services)
    requires Consistent(l) && id in l.assets && Terminates(l.assets[id])
    ensures BoardFor(l, id, svc).Ok? ==> forall x <- BoardFor(l, id, svc).value :: ValidDate(x.date)
  {
    if BoardFor(l, id, svc).Ok? {
      var t := l.assets[id].terms;
      var vr := ValueResidualOf(l, id, svc);
      var posted := |PostedLines(l.lines, id)|;
      var anchor := AnchorFor(l, id);
      var undone := UndoneCount(t, anchor);
      LinesValidDates(SetupFor(t, vr, posted, undone, anchor), posted + 1, StartResidual(t, vr), anchor);
    }
  }

  lemma {:induction false} DraftValuesAppend(a: seq<Line>, b: seq<Line>, id: AssetId)
    ensures DraftValues(a + b, id) == DraftValues(a, id) + DraftValues(b, id)
    decreases |a|
  {
    if a == [] {
      assert a + b == b;
    } else {
      var ab := a + b;
      assert ab[0] == a[0] && ab[1..] == a[1..] + b;
      DraftValuesAppend(a[1..], b, id);
      var head := if a[0].asset == id && a[0].state == LineState.Draft then [a[0].values] else [];
      assert DraftValues(ab, id) == head + DraftValues(a[1..] + b, id);
      assert DraftValues(a, id) == head + DraftValues(a[1..], id);
      assert head + (DraftValues(a[1..], id) + DraftValues(b, id))
          == (head + DraftValues(a[1..], id)) + DraftValues(b, id);
    }
  }

  lemma {:induction false} PostedLinesAppend(a: seq<Line>, b: seq<Line>, id: AssetId)
    ensures PostedLines(a + b, id) == PostedLines(a, id) + PostedLines(b, id)
    decreases |a|
  {
    if a == [] {
      assert a + b == b;
    } else {
      var ab := a + b;
      assert ab[0] == a[0] && ab[1..] == a[1..] + b;
      PostedLinesAppend(a[1..], b, id);
      var head := if a[0].asset == id && a[0].state != LineState.Draft then [a[0]] else [];
      assert PostedLines(ab, id) == head + PostedLines(a[1..] + b, id);
      assert PostedLines(a, id) == head + PostedLines(a[1..], id);
      assert head + (PostedLines(a[1..], id) + PostedLines(b, id))
          == (head + PostedLines(a[1..], id)) + PostedLines(b, id);
    }
  }

  /** Dropping an asset's drafts removes exactly its drafts: every other line kind survives. */
  lemma {:induction false} WithoutDraftsKeeps(lines: seq<Line>, id: AssetId, q: AssetId)
    ensures DraftValues(WithoutDrafts(lines, id), q) == if q == id then [] else DraftValues(lines, q)
    ensures PostedLines(WithoutDrafts(lines, id), q) == PostedLines(lines, q)
    decreases |lines|
  {
    if lines != [] {
      WithoutDraftsKeeps(lines[1..], id, q);
      var head := if lines[0].asset == id && lines[0].state == LineState.Draft then [] else [lines[0]];
      DraftValuesAppend(head, WithoutDrafts(lines[1..], id), q);
      PostedLinesAppend(head, WithoutDrafts(lines[1..], id), q);
      if head != [] {
        assert head[1..] == [];
      }
    }
  }

  /** New records are drafts of their asset carrying exactly the board's values. */
  lemma {:induction false} DraftRecordsValues(id: AssetId, next: nat, board: seq<DepLine>, q: AssetId)
    ensures DraftValues(DraftRecords(id, next, board), q) == if q == id then board else []
    ensures PostedLines(DraftRecords(id, next, board), q) == []
    decreases |board|
  {
    var r := DraftRecords(id, next, board);
    if board != [] {
      DraftRecordsValues(id, next + 1, board[1..], q);
      assert r[1..] == DraftRecords(id, next + 1, board[1..]);
    }
  }

  /**
   * After a rebuild the asset's drafts are exactly the new board, and no
   * other asset's drafts and no asset's posted or cancelled lines change.
   */
  lemma {:induction false} RebuildDrafts(l: Ledger, id: AssetId, svc: Services, q: AssetId)
    requires Consistent(l) && id in l.assets && Terminates(l.assets[id])
    requires Rebuild(l, id, svc).Ok? && ValueResidualOf(l, id, svc) != 0.0
    ensures DraftValues(Rebuild(l, id, svc).value.lines, q)
         == if q == id then BoardFor(l, id, svc).value else DraftValues(l.lines, q)
    ensures PostedLines(Rebuild(l, id, svc).value.lines, q) == PostedLines(l.lines, q)
  {
    var board := BoardFor(l, id, svc).value;
    var kept := WithoutDrafts(l.lines, id);
    var added := DraftRecords(id, l.nextLine, board);
    var n := Rebuild(l, id, svc).value.lines;
    assert n == kept + added;
    DraftValuesAppend(kept, added, q);
    PostedLinesAppend(kept, added, q);
    WithoutDraftsKeeps(l.lines, id, q);
    DraftRecordsValues(id, l.nextLine, board, q);
    assert DraftValues(n, q) == DraftValues(kept, q) + DraftValues(added, q);
    assert PostedLines(n, q) == PostedLines(kept, q) + PostedLines(added, q);
  }

  /** The board of an asset depends only on the assets, the journal items and its posted lines. */
  lemma {:induction false} BoardDependsOn(l: Ledger, n: Ledger, id: AssetId, svc: Services)
    requires Consistent(l) && Consistent(n) && id in l.assets && Terminates(l.assets[id])
    requires n.assets == l.assets && n.moveLines == l.moveLines && PostedLines(n.lines, id) == PostedLines(l.lines, id)
    ensures ValueResidualOf(n, id, svc) == ValueResidualOf(l, id, svc)
    ensures BoardFor(n, id, svc) == BoardFor(l, id, svc)
  {
    assert AnchorFor(n, id) == AnchorFor(l, id);
  }

  /**
   * Rebuilding twice is rebuilding once: the second rebuild succeeds and
   * produces the same draft board, since it sees the same residual value,
   * posted lines and journal items.
   */
  lemma {:induction false} RebuildIdempotent(l: Ledger, id: AssetId, svc: Services)
    requires Consistent(l) && id in l.assets && Terminates(l.assets[id])
    requires Rebuild(l, id, svc).Ok?
    ensures var n := Rebuild(l, id, svc).value;
      Consistent(n)
      && Rebuild(n, id, svc).Ok?
      && DraftValues(Rebuild(n, id, svc).value.lines, id) == DraftValues(n.lines, id)
      && PostedLines(Rebuild(n, id, svc).value.lines, id) == PostedLines(n.lines, id)
  {
    var n := Rebuild(l, id, svc).value;
    RebuildConsistent(l, id, svc);
    if ValueResidualOf(l, id, svc) != 0.0 {
      RebuildDrafts(l, id, svc, id);
      BoardDependsOn(l, n, id, svc);
      RebuildDrafts(n, id, svc, id);
    }
  }

  /**
   * Without prorata a rebuilt board starts in a later month than every
   * posted or cancelled line of the asset: one period after the latest.
   */
  lemma {:induction false} AnchorFollowsPosted(l: Ledger, id: AssetId)
    requires Consistent(l) && id in l.assets
    requires !l.assets[id].terms.prorata && l.assets[id].terms.methodPeriod > 0
    ensures forall x <- PostedLines(l.lines, id) :: MonthIndex(x.values.date) < MonthIndex(AnchorFor(l, id))
  {
    var posted := PostedLines(l.lines, id);
    if posted != [] {
      var latest := LatestDate(posted);
      PostedLinesMembers(l.lines, id);
      forall x <- posted ensures MonthIndex(x.values.date) < MonthIndex(AnchorFor(l, id)) {
        assert LineOk(l, x);
        var y :| y in posted && y.values.date == latest;
        assert LineOk(l, y);
        DateLeMonthIndex(x.values.date, latest);
      }
    }
  }

  /**
   * The residual value as `_amount_residual` computes it, for an asset kept
   * in the company currency, is the model's residual less the posted
   * depreciation once more; it reaches 0 when half of the depreciable value
   * has been posted.
   */
  lemma {:induction false} AsWrittenResidualGap(l: Ledger, id: AssetId, svc: Services)
    requires Consistent(l) && id in l.assets && l.assets[id].currency == l.assets[id].companyCurrency
    ensures ValueResidualAsWritten(l.assets[id], l.moveLines, id, svc, None)
         == ValueResidualOf(l, id, svc) - PostedTotal(l.moveLines, id)
    ensures var t := l.assets[id].terms;
      ValueResidualAsWritten(l.assets[id], l.moveLines, id, svc, None) == 0.0
      <==> 2.0 * PostedTotal(l.moveLines, id) == t.purchaseValue - t.salvageValue
  {
    PostedTotalDoubleCounts(l.moveLines, id);
  }

  /** A posting date given in the context is a calendar date. */
  predicate ValidOverride(override: Option<Date>) {
    override.Some? ==> ValidDate(override.value)
  }

  /**
   * Posting a line adds its amount, converted to the company currency, to its
   * asset's posted total when the asset is valued automatically, and nothing
   * to any other asset's total.
   */
  lemma {:induction false} PostStepTotal(l: Ledger, lid: LineId, override: Option<Date>, svc: Services, q: AssetId)
    requires Postable(l, lid)
    ensures var x := LineAt(l.lines, lid).value;
      var a := l.assets[x.asset];
      PostedTotal(PostStep(l, lid, override, svc).moveLines, q)
      == PostedTotal(l.moveLines, q)
         + (if a.valuation == Auto && q == x.asset then Abs(PostingAmount(a, x, override, svc)) else 0.0)
  {
    var x := LineAt(l.lines, lid).value;
    var a := l.assets[x.asset];
    if a.valuation == Auto {
      PostedTotalAfterEntry(l.moveLines, l.nextMove, a, x.asset, x.values.amount, PostingAmount(a, x, override, svc),
                            PostingDate(x, override), PostingPeriod(x, override, svc), q);
    }
  }

  /** Posting keeps the tables consistent: the new entry is fresh and whole. */
  lemma {:induction false} PostStepConsistent(l: Ledger, lid: LineId, override: Option<Date>, svc: Services)
    requires Consistent(l) && Postable(l, lid) && ValidOverride(override)
    ensures Consistent(PostStep(l, lid, override, svc))
  {
    var x := LineAt(l.lines, lid).value;
    var a := l.assets[x.asset];
    if a.valuation == Auto {
      var r := PostStep(l, lid, override, svc);
      var m := l.nextMove;
      var date := PostingDate(x, override);
      var period := PostingPeriod(x, override, svc);
      var entry := CreateMoveLines(m, x.asset, a, x.values.amount, PostingAmount(a, x, override, svc), date, period);
      assert LineOk(l, x);
      EntryPaired(m, x.asset, a, x.values.amount, PostingAmount(a, x, override, svc), date, period);
      PairedAppend(l.moveLines, entry);
      forall ml <- r.moveLines ensures MoveLineOk(r, ml) {
        if ml in l.moveLines { assert MoveLineOk(l, ml); } else { assert ml in entry; }
      }
      forall y <- r.lines ensures LineOk(r, y) {
        var k :| 0 <= k < |r.lines| && r.lines[k] == y;
        assert LineOk(l, l.lines[k]);
      }
    }
  }

  /** Posting a line links it to its new entry and never clears an existing link. */
  lemma {:induction false} PostStepLinks(l: Ledger, lid: LineId, override: Option<Date>, svc: Services)
    requires Postable(l, lid)
    ensures var r := PostStep(l, lid, override, svc);
      (l.assets[AssetOf(l, lid)].valuation == Auto ==>
         LineAt(r.lines, lid).value.move == Some(l.nextMove) && l.nextMove in r.moves)
      && forall q :: Postable(l, q) && LineAt(l.lines, q).value.move.Some? ==> LineAt(r.lines, q).value.move.Some?
  {
    var r := PostStep(l, lid, override, svc);
    SameRowsFirstIndex(l.lines, r.lines, lid);
    forall q | Postable(l, q) && LineAt(l.lines, q).value.move.Some?
      ensures LineAt(r.lines, q).value.move.Some?
    {
      SameRowsFirstIndex(l.lines, r.lines, q);
    }
  }

  /** How many of the lines belong to automatically valued assets. */
  function AutoCount(l: Ledger, ids: seq<LineId>): nat
    requires forall lid <- ids :: Postable(l, lid)
  {
    if ids == [] then 0
    else (if l.assets[AssetOf(l, ids[0])].valuation == Auto then 1 else 0) + AutoCount(l, ids[1..])
  }

  lemma {:induction false} AutoCountSameRows(l: Ledger, n: Ledger, ids: seq<LineId>)
    requires forall lid <- ids :: Postable(l, lid)
    requires n.assets == l.assets && SameRows(l.lines, n.lines)
    ensures forall lid <- ids :: Postable(n, lid)
    ensures AutoCount(n, ids) == AutoCount(l, ids)
    decreases |ids|
  {
    forall lid <- ids ensures Postable(n, lid) && AssetOf(n, lid) == AssetOf(l, lid) {
      SameRowsLineAt(l.lines, n.lines, lid);
    }
    if ids != [] {
      AutoCountSameRows(l, n, ids[1..]);
    }
  }

  /** Posting one line creates at most one entry, under the next free id. */
  lemma {:induction false} PostStepMoves(l: Ledger, lid: LineId, override: Option<Date>, svc: Services)
    requires Postable(l, lid)
    ensures var r := PostStep(l, lid, override, svc);
      var added := if l.assets[AssetOf(l, lid)].valuation == Auto then 1 else 0;
      r.nextMove == l.nextMove + added
      && forall m :: m in r.moves <==> m in l.moves || l.nextMove <= m < r.nextMove
  {
    var x := LineAt(l.lines, lid).value;
    var a := l.assets[x.asset];
    var r := PostStep(l, lid, override, svc);
    if a.valuation == Auto {
      var date := PostingDate(x, override);
      var period := PostingPeriod(x, override, svc);
      assert r.moves == l.moves[l.nextMove := MoveFor(a, date, period)];
    }
  }

  /**
   * `create_move` creates one entry per line of an automatically valued
   * asset, under consecutive new ids, and keeps every existing entry.
   */
  lemma {:induction false} PostAllMoves(l: Ledger, ids: seq<LineId>, override: Option<Date>, svc: Services)
    requires forall lid <- ids :: Postable(l, lid)
    ensures var r := PostAll(l, ids, override, svc);
      r.nextMove == l.nextMove + AutoCount(l, ids)
      && forall m :: m in r.moves <==> m in l.moves || l.nextMove <= m < r.nextMove
    decreases |ids|
  {
    if ids != [] {
      var next := PostStep(l, ids[0], override, svc);
      PostStepMoves(l, ids[0], override, svc);
      AutoCountSameRows(l, next, ids[1..]);
      PostAllMoves(next, ids[1..], override, svc);
    }
  }

  /** `create_move` over several lines keeps the tables consistent. */
  lemma {:induction false} PostAllConsistent(l: Ledger, ids: seq<LineId>, override: Option<Date>, svc: Services)
    requires Consistent(l) && ValidOverride(override) && forall lid <- ids :: Postable(l, lid)
    ensures Consistent(PostAll(l, ids, override, svc))
    decreases |ids|
  {
    if ids != [] {
      PostStepConsistent(l, ids[0], override, svc);
      PostAllConsistent(PostStep(l, ids[0], override, svc), ids[1..], override, svc);
    }
  }

  /** After `create_move`, every given line of an automatically valued asset has an entry. */
  lemma {:induction false} PostAllLinks(l: Ledger, ids: seq<LineId>, override: Option<Date>, svc: Services)
    requires forall lid <- ids :: Postable(l, lid)
    ensures var r := PostAll(l, ids, override, svc);
      (forall lid <- ids :: l.assets[AssetOf(l, lid)].valuation == Auto ==>
         LineAt(r.lines, lid).Some? && LineAt(r.lines, lid).value.move.Some?)
      && forall q :: Postable(l, q) && LineAt(l.lines, q).value.move.Some? ==>
           LineAt(r.lines, q).Some? && LineAt(r.lines, q).value.move.Some?
    decreases |ids|
  {
    var r := PostAll(l, ids, override, svc);
    if ids == [] {
    } else {
      var n := PostStep(l, ids[0], override, svc);
      PostStepLinks(l, ids[0], override, svc);
      PostAllLinks(n, ids[1..], override, svc);
      forall lid <- ids | l.assets[AssetOf(l, lid)].valuation == Auto
        ensures LineAt(r.lines, lid).Some? && LineAt(r.lines, lid).value.move.Some?
      {
        SameRowsLineAt(l.lines, n.lines, lid);
        if lid != ids[0] {
          assert lid in ids[1..];
        }
      }
    }
  }

  /** What `create_move` adds to one asset's posted total: its lines' converted amounts. */
  function PostingsTotal(l: Ledger, ids: seq<LineId>, q: AssetId, override: Option<Date>, svc: Services): real
    requires forall lid <- ids :: Postable(l, lid)
    decreases |ids|
  {
    if ids == [] then 0.0
    else
      assert ids[0] in ids && Postable(l, ids[0]);
      var x := LineAt(l.lines, ids[0]).value;
      var a := l.assets[x.asset];
      (if a.valuation == Auto && x.asset == q then Abs(PostingAmount(a, x, override, svc)) else 0.0)
      + PostingsTotal(l, ids[1..], q, override, svc)
  }

  lemma {:induction false} PostingsTotalSameRows(l: Ledger, n: Ledger, ids: seq<LineId>, q: AssetId,
                                                  override: Option<Date>, svc: Services)
    requires forall lid <- ids :: Postable(l, lid)
    requires n.assets == l.assets && SameRows(l.lines, n.lines)
    ensures forall lid <- ids :: Postable(n, lid)
    ensures PostingsTotal(n, ids, q, override, svc) == PostingsTotal(l, ids, q, override, svc)
    decreases |ids|
  {
    forall lid <- ids ensures Postable(n, lid) { SameRowsLineAt(l.lines, n.lines, lid); }
    if ids != [] {
      SameRowsFirstIndex(l.lines, n.lines, ids[0]);
      PostingsTotalSameRows(l, n, ids[1..], q, override, svc);
    }
  }

  /** `create_move` raises each asset's posted total by exactly what its lines post. */
  lemma {:induction false} PostAllTotal(l: Ledger, ids: seq<LineId>, q: AssetId, override: Option<Date>, svc: Services)
    requires forall lid <- ids :: Postable(l, lid)
    ensures PostedTotal(PostAll(l, ids, override, svc).moveLines, q)
         == PostedTotal(l.moveLines, q) + PostingsTotal(l, ids, q, override, svc)
    decreases |ids|
  {
    if ids != [] {
      var n := PostStep(l, ids[0], override, svc);
      PostStepTotal(l, ids[0], override, svc, q);
      PostingsTotalSameRows(l, n, ids[1..], q, override, svc);
      PostAllTotal(n, ids[1..], q, override, svc);
    }
  }

  /**
   * For an asset kept in the company currency and touched by `create_move`:
   * its residual value drops by what its lines post, and it is closed exactly
   * when that brings the residual to 0 (or stays as it was otherwise).
   */
  lemma {:induction false} CreateMoveCloses(l: Ledger, ids: seq<LineId>, q: AssetId, override: Option<Date>, svc: Services)
    requires forall lid <- ids :: Postable(l, lid)
    requires q in Touched(l, ids) && l.assets[q].currency == l.assets[q].companyCurrency
    ensures ValueResidualOf(PostAll(l, ids, override, svc), q, svc)
         == ValueResidualOf(l, q, svc) - PostingsTotal(l, ids, q, override, svc)
    ensures var r := CreateMove(l, ids, override, svc);
      r.assets[q].state == if ValueResidualOf(l, q, svc) == PostingsTotal(l, ids, q, override, svc) then Close
                           else l.assets[q].state
  {
    PostAllTotal(l, ids, q, override, svc);
  }

  lemma {:induction false} SetLineStateConsistent(l: Ledger, ids: set<LineId>, st: LineState)
    requires Consistent(l)
    ensures Consistent(SetLineState(l, ids, st))
  {
    var r := SetLineState(l, ids, st);
    forall y <- r.lines ensures LineOk(r, y) {
      var k :| 0 <= k < |r.lines| && r.lines[k] == y;
      assert LineOk(l, l.lines[k]);
    }
    forall ml <- r.moveLines ensures MoveLineOk(r, ml) { assert MoveLineOk(l, ml); }
  }

  lemma {:induction false} SetAssetStateConsistent(l: Ledger, ids: set<AssetId>, st: AssetState)
    requires Consistent(l)
    ensures Consistent(SetAssetState(l, ids, st))
  {
    var r := SetAssetState(l, ids, st);
    forall y <- r.lines ensures LineOk(r, y) { assert LineOk(l, y); }
    forall ml <- r.moveLines ensures MoveLineOk(r, ml) { assert MoveLineOk(l, ml); }
  }

  lemma {:induction false} CloseSettledConsistent(l: Ledger, touched: set<AssetId>, at: Option<Date>, svc: Services)
    requires Consistent(l)
    ensures Consistent(CloseSettled(l, touched, at, svc))
  {
    var r := CloseSettled(l, touched, at, svc);
    forall y <- r.lines ensures LineOk(r, y) { assert LineOk(l, y); }
    forall ml <- r.moveLines ensures MoveLineOk(r, ml) { assert MoveLineOk(l, ml); }
  }

  /** `action_done` keeps the tables consistent. */
  lemma {:induction false} ActionDoneConsistent(l: Ledger, ids: seq<LineId>, override: Option<Date>, svc: Services)
    requires Consistent(l) && ValidOverride(override) && forall lid <- ids :: Postable(l, lid)
    ensures ActionDone(l, ids, override, svc).Ok? ==> Consistent(ActionDone(l, ids, override, svc).value)
  {
    if !SomeAssetNotOpen(l, ids) {
      PostAllConsistent(l, ids, override, svc);
      var posted := PostAll(l, ids, override, svc);
      CloseSettledConsistent(posted, Touched(l, ids), LastPostingDate(l, ids, override), svc);
      SetLineStateConsistent(CreateMove(l, ids, override, svc), (set lid <- ids), LineState.Done);
    }
  }

  /**
   * After `action_done` every given line is done, and every given line of an
   * automatically valued asset is linked to an entry.
   */
  lemma {:induction false} ActionDoneMarks(l: Ledger, ids: seq<LineId>, override: Option<Date>, svc: Services)
    requires forall lid <- ids :: Postable(l, lid)
    requires ActionDone(l, ids, override, svc).Ok?
    ensures var r := ActionDone(l, ids, override, svc).value;
      forall lid <- ids :: LineAt(r.lines, lid).Some? && LineAt(r.lines, lid).value.state == LineState.Done
        && (l.assets[AssetOf(l, lid)].valuation == Auto ==> LineAt(r.lines, lid).value.move.Some?)
  {
    var posted := PostAll(l, ids, override, svc);
    var moved := CreateMove(l, ids, override, svc);
    var r := ActionDone(l, ids, override, svc).value;
    assert moved.lines == posted.lines by {
      assert moved == CloseSettled(posted, Touched(l, ids), LastPostingDate(l, ids, override), svc);
    }
    assert r == SetLineState(moved, (set lid <- ids), LineState.Done);
    PostAllLinks(l, ids, override, svc);
    forall lid <- ids
      ensures LineAt(r.lines, lid).Some? && LineAt(r.lines, lid).value.state == LineState.Done
        && (l.assets[AssetOf(l, lid)].valuation == Auto ==> LineAt(r.lines, lid).value.move.Some?)
    {
      SameRowsLineAt(l.lines, posted.lines, lid);
      SetLineStateAt(moved, (set lid <- ids), LineState.Done, lid);
    }
  }

  /** `write({'state': s})` gives a listed line that state and changes nothing else in it. */
  lemma {:induction false} SetLineStateAt(l: Ledger, ids: set<LineId>, s: LineState, lid: LineId)
    requires lid in ids && LineAt(l.lines, lid).Some?
    ensures var r := SetLineState(l, ids, s);
      LineAt(r.lines, lid) == Some(LineAt(l.lines, lid).value.(state := s))
  {
    var r := SetLineState(l, ids, s);
    SameRowsFirstIndex(l.lines, r.lines, lid);
  }

  /** The two journal items of one entry are deleted together or kept together. */
  lemma {:induction false} DropEntriesPair(mls: seq<MoveLine>, ms: set<MoveId>)
    requires |mls| >= 2 && mls[0].move == mls[1].move
    ensures DropEntries(mls, ms) == (if mls[0].move in ms then [] else [mls[0], mls[1]]) + DropEntries(mls[2..], ms)
  {
    var tail := mls[1..];
    assert tail[0] == mls[1] && tail[1..] == mls[2..];
    DropEntriesCons(mls, ms);
    DropEntriesCons(tail, ms);
    var rest := DropEntries(mls[2..], ms);
    var head := if mls[0].move in ms then [] else [mls[0]];
    var second := if mls[0].move in ms then [] else [mls[1]];
    assert head + (second + rest) == (head + second) + rest;
  }

  /** One step of `DropEntries`. */
  lemma {:induction false} DropEntriesCons(mls: seq<MoveLine>, ms: set<MoveId>)
    requires mls != []
    ensures DropEntries(mls, ms) == (if mls[0].move in ms then [] else [mls[0]]) + DropEntries(mls[1..], ms)
  {
  }

  /** Deleting the entries of whole depreciation entries leaves whole entries. */
  lemma {:induction false} DropEntriesPaired(mls: seq<MoveLine>, ms: set<MoveId>)
    requires Paired(mls)
    ensures Paired(DropEntries(mls, ms))
    decreases |mls|
  {
    if mls != [] {
      DropEntriesPaired(mls[2..], ms);
      DropEntriesPair(mls, ms);
      var rest := DropEntries(mls[2..], ms);
      if mls[0].move !in ms {
        assert ([mls[0], mls[1]] + rest)[2..] == rest;
      } else {
        assert [] + rest == rest;
      }
    }
  }

  /** `action_cancel` keeps the tables consistent: no link or journal item is left dangling. */
  lemma {:induction false} ActionCancelConsistent(l: Ledger, ids: set<LineId>)
    requires Consistent(l)
    ensures Consistent(ActionCancel(l, ids))
  {
    var ms := LinkedMoves(l.lines, ids);
    var r := ActionCancel(l, ids);
    DropEntriesPaired(l.moveLines, ms);
    forall y <- r.lines ensures LineOk(r, y) {
      var k :| 0 <= k < |r.lines| && r.lines[k] == y;
      assert LineOk(l, l.lines[k]);
    }
    forall ml <- r.moveLines ensures MoveLineOk(r, ml) { assert MoveLineOk(l, ml); }
  }

  /**
   * A cancelled line still counts as posted when the board is rebuilt: the
   * rebuild leaves it in place and numbers the new lines after it.
   */
  lemma {:induction false} CancelledStaysPosted(l: Ledger, ids: set<LineId>, lid: LineId)
    requires lid in ids && LineAt(l.lines, lid).Some?
    ensures var r := ActionCancel(l, ids);
      LineAt(r.lines, lid).Some? && LineAt(r.lines, lid).value.state == Cancel
      && LineAt(r.lines, lid).value in PostedLines(r.lines, LineAt(l.lines, lid).value.asset)
  {
    var r := ActionCancel(l, ids);
    SameRowsFirstIndex(l.lines, r.lines, lid);
    PostedLinesMembers(r.lines, LineAt(l.lines, lid).value.asset);
  }

  /** `unlink` keeps the tables consistent; without its guard it would leave journal items without an asset. */
  lemma {:induction false} UnlinkConsistent(l: Ledger, ids: set<AssetId>)
    requires Consistent(l)
    ensures Unlink(l, ids).Ok? ==> Consistent(Unlink(l, ids).value)
  {
    if Unlink(l, ids).Ok? {
      var r := Unlink(l, ids).value;
      forall y <- r.lines ensures LineOk(r, y) { assert LineOk(l, y); }
      forall ml <- r.moveLines ensures MoveLineOk(r, ml) { assert MoveLineOk(l, ml); }
    }
  }
}
