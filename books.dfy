/**
 * The engine's tables as mutable state. Each method performs one public
 * operation of the engine the way the source does, step by step on the
 * tables, and is proved to leave exactly the ledger that the corresponding
 * function of module Ledgers describes; a failing operation leaves the
 * tables as they were (the transaction is rolled back).
 */
module Books {
  import opened Wrappers
  import opened Calendar
  import opened Board
  import opened Records
  import opened Posting
  import opened Ledgers

  class Books {
    var assets: map<AssetId, Asset>
    var lines: seq<Line>
    var moves: map<MoveId, Move>
    var moveLines: seq<MoveLine>
    var nextLine: nat
    var nextMove: nat

    /** The tables as one value. */
    function Snapshot(): Ledger
      reads this
    {
      Ledger(assets, lines, moves, moveLines, nextLine, nextMove)
    }

    /** The invariant every operation keeps: the tables are referentially consistent. */
    ghost predicate Valid()
      reads this
    {
      Consistent(Snapshot())
    }

    /** Empty tables. */
    constructor ()
      ensures Snapshot() == Ledger(map[], [], map[], [], 0, 0)
      ensures Valid()
    {
      assets, lines, moves, moveLines, nextLine, nextMove := map[], [], map[], [], 0, 0;
    }

    /** Puts the tables back as they were: the rollback of a failed transaction. */
    method Restore(l: Ledger)
      modifies this
      ensures Snapshot() == l
    {
      assets, lines, moves, moveLines, nextLine, nextMove := l.assets, l.lines, l.moves, l.moveLines, l.nextLine, l.nextMove;
    }

    // ------------------------------------------------------- asset records

    /** `write({'state': s})` on the given assets. */
    method WriteAssetState(ids: set<AssetId>, s: AssetState)
      requires Valid()
      modifies this
      ensures Snapshot() == SetAssetState(old(Snapshot()), ids, s)
      ensures Valid()
    {
      SetAssetStateConsistent(Snapshot(), ids, s);
      assets := map id | id in assets :: if id in ids then assets[id].(state := s) else assets[id];
    }

    /** `validate`: the assets are running, whatever state they were in. */
    method Validate(ids: set<AssetId>)
      requires Valid()
      modifies this
      ensures Snapshot() == Ledgers.Validate(old(Snapshot()), ids)
      ensures Valid()
    {
      WriteAssetState(ids, Open);
    }

    /** `set_to_close`. */
    method SetToClose(ids: set<AssetId>)
      requires Valid()
      modifies this
      ensures Snapshot() == Ledgers.SetToClose(old(Snapshot()), ids)
      ensures Valid()
    {
      WriteAssetState(ids, Close);
    }

    /** `set_to_draft`. */
    method SetToDraft(ids: set<AssetId>)
      requires Valid()
      modifies this
      ensures Snapshot() == Ledgers.SetToDraft(old(Snapshot()), ids)
      ensures Valid()
    {
      WriteAssetState(ids, AssetState.Draft);
    }

    /**
     * `unlink`: each asset's journal items are checked first; one asset with
     * items refuses the whole deletion. Otherwise the assets go, and their
     * depreciation lines with them.
     */
    method Unlink(ids: set<AssetId>) returns (err: Option<Failure>)
      requires Valid()
      modifies this
      ensures err.Some? <==> HasEntries(old(Snapshot()), ids)
      ensures err.Some? ==> err.value == HasPostedEntries && Snapshot() == old(Snapshot())
      ensures err.None? ==> Ledgers.Unlink(old(Snapshot()), ids) == Ok(Snapshot())
      ensures Valid()
    {
      var k := 0;
      while k < |moveLines|
        invariant 0 <= k <= |moveLines|
        invariant forall j :: 0 <= j < k ==> moveLines[j].asset !in ids
      {
        if moveLines[k].asset in ids {
          return Some(HasPostedEntries);
        }
        k := k + 1;
      }
      UnlinkConsistent(Snapshot(), ids);
      assets := assets - ids;
      lines := DropAssetLines(lines, ids);
      return None;
    }

    // --------------------------------------------------- depreciation lines

    /** `write({'state': s})` on the given lines. */
    method WriteLineState(ids: set<LineId>, s: LineState)
      requires Valid()
      modifies this
      ensures Snapshot() == SetLineState(old(Snapshot()), ids, s)
      ensures Valid()
    {
      SetLineStateConsistent(Snapshot(), ids, s);
      var ls := lines;
      lines := seq(|ls|, k requires 0 <= k < |ls| => if ls[k].id in ids then ls[k].(state := s) else ls[k]);
    }

    /** `action_draft`. */
    method ActionDraft(ids: set<LineId>)
      requires Valid()
      modifies this
      ensures Snapshot() == Ledgers.ActionDraft(old(Snapshot()), ids)
      ensures Valid()
    {
      WriteLineState(ids, LineState.Draft);
    }

    /**
     * `action_cancel`: the entries of the lines are collected, deleted with
     * their journal items (clearing every line's link to them), and the lines
     * are cancelled.
     */
    method ActionCancel(ids: set<LineId>)
      requires Valid()
      modifies this
      ensures Snapshot() == Ledgers.ActionCancel(old(Snapshot()), ids)
      ensures Valid()
    {
      ActionCancelConsistent(Snapshot(), ids);
      var ms := LinkedMoves(lines, ids);
      moves := moves - ms;
      moveLines := DropEntries(moveLines, ms);
      var ls := lines;
      lines := seq(|ls|, k requires 0 <= k < |ls| => CancelRow(ls[k], ids, ms));
    }

    /**
     * One iteration of `create_move`'s loop: a line of an automatically
     * valued asset gets a new entry, dated and periodised as the line says,
     * with its two journal items, and is linked to it. It answers the asset
     * posted for and the date it puts in the context.
     */
    method PostLine(lid: LineId, override: Option<Date>, svc: Services) returns (posted: Option<AssetId>, dated: Option<Date>)
      requires Postable(Snapshot(), lid)
      modifies this
      ensures Snapshot() == PostStep(old(Snapshot()), lid, override, svc)
      ensures var id := AssetOf(old(Snapshot()), lid);
        posted == if old(assets)[id].valuation == Auto then Some(id) else None
      ensures dated == ContextDate(old(Snapshot()), lid, override)
    {
      var x := LineAt(lines, lid).value;
      var a := assets[x.asset];
      posted := None;
      dated := None;
      if a.valuation == Auto {
        var date := PostingDate(x, override);
        var period := PostingPeriod(x, override, svc);
        var m := nextMove;
        moves := moves[m := MoveFor(a, date, period)];
        moveLines := moveLines + CreateMoveLines(m, x.asset, a, x.values.amount, PostingAmount(a, x, override, svc), date, period);
        lines := LinkMove(lines, lid, m);
        nextMove := m + 1;
        posted := Some(x.asset);
        dated := Some(date);
      }
    }

    /**
     * The loop of `create_move` over the lines, in order; it answers the
     * assets it has posted for and the date it leaves in the context.
     */
    method PostLines(ids: seq<LineId>, override: Option<Date>, svc: Services) returns (touched: set<AssetId>, last: Option<Date>)
      requires forall lid <- ids :: Postable(Snapshot(), lid)
      modifies this
      ensures Snapshot() == PostAll(old(Snapshot()), ids, override, svc)
      ensures touched == Touched(old(Snapshot()), ids)
      ensures last == LastPostingDate(old(Snapshot()), ids, override)
    {
      ghost var start := Snapshot();
      touched := {};
      last := None;
      PostingStart(start, ids, override, svc);
      var k := 0;
      while k < |ids|
        invariant PostedUpTo(start, Snapshot(), ids, k, override, svc, touched, last)
      {
        var lid := ids[k];
        ghost var cur := Snapshot();
        PostingTurn(start, cur, ids, k, override, svc, touched, last);
        var posted, dated := PostLine(lid, override, svc);
        if posted.Some? {
          touched := touched + {posted.value};
          last := dated;
        }
        k := k + 1;
      }
      PostingEnd(start, Snapshot(), ids, override, svc, touched, last);
    }

    /**
     * `create_move`: the lines are posted; then every asset touched whose
     * residual value has dropped to 0 is closed.
     */
    method CreateMove(ids: seq<LineId>, override: Option<Date>, svc: Services)
      requires Valid() && ValidOverride(override)
      requires forall lid <- ids :: Postable(Snapshot(), lid)
      modifies this
      ensures Snapshot() == Ledgers.CreateMove(old(Snapshot()), ids, override, svc)
      ensures Valid()
    {
      PostAllConsistent(Snapshot(), ids, override, svc);
      var touched, last := PostLines(ids, override, svc);
      ghost var posted := Snapshot();
      CloseSettledConsistent(posted, touched, last, svc);
      assets := map id | id in assets ::
        if id in touched && ValueResidual(assets[id], moveLines, id, svc, last) == 0.0 then assets[id].(state := Close)
        else assets[id];
      assert Snapshot() == CloseSettled(posted, touched, last, svc);
    }

    /**
     * `action_done`: every line's asset must be running, otherwise nothing
     * happens; then the lines are posted and marked done.
     */
    method ActionDone(ids: seq<LineId>, override: Option<Date>, svc: Services) returns (err: Option<Failure>)
      requires Valid() && ValidOverride(override)
      requires forall lid <- ids :: Postable(Snapshot(), lid)
      modifies this
      ensures err.Some? <==> SomeAssetNotOpen(old(Snapshot()), ids)
      ensures err.Some? ==> err.value == AssetNotOpen && Snapshot() == old(Snapshot())
      ensures err.None? ==> Ledgers.ActionDone(old(Snapshot()), ids, override, svc) == Ok(Snapshot())
      ensures Valid()
    {
      var k := 0;
      while k < |ids|
        invariant 0 <= k <= |ids|
        invariant forall j :: 0 <= j < k ==> assets[AssetOf(Snapshot(), ids[j])].state == Open
      {
        if assets[AssetOf(Snapshot(), ids[k])].state != Open {
          return Some(AssetNotOpen);
        }
        k := k + 1;
      }
      CreateMove(ids, override, svc);
      WriteLineState((set lid <- ids), LineState.Done);
      return None;
    }

    // ------------------------------------------------------------ the board

    /**
     * One asset of `compute_depreciation_board`: nothing to do when its
     * residual value is 0; otherwise its drafts are deleted, the anchor date
     * and the number of lines are computed, and the new lines are created.
     * On error the caller rolls back.
     */
    method RebuildAsset(id: AssetId, svc: Services) returns (err: Option<Failure>)
      requires Valid() && id in assets && Terminates(assets[id])
      modifies this
      ensures err.None? ==> Rebuild(old(Snapshot()), id, svc) == Ok(Snapshot())
      ensures err.Some? ==> Rebuild(old(Snapshot()), id, svc) == Err(err.value)
    {
      ghost var before := Snapshot();
      var vr := ValueResidualOf(Snapshot(), id, svc);
      if vr == 0.0 {
        return None;
      }
      var t := assets[id].terms;
      var posted := |PostedLines(lines, id)|;
      var anchor := AnchorFor(Snapshot(), id);
      assert ValidDate(anchor) && WellFormedAsset(assets[id]);
      lines := WithoutDrafts(lines, id);
      var board := ScheduleBoard(t, vr, posted, anchor);
      assert board == BoardFor(before, id, svc);
      if board.Err? {
        return Some(board.error);
      }
      RebuildOk(before, id, svc, board.value);
      lines := lines + DraftRecords(id, nextLine, board.value);
      nextLine := nextLine + |board.value|;
      return None;
    }

    /**
     * `compute_depreciation_board` over the given assets, in order. The first
     * error rolls every asset back.
     */
    method ComputeDepreciationBoard(ids: seq<AssetId>, svc: Services) returns (err: Option<Failure>)
      requires Valid()
      requires forall id <- ids :: id in assets && Terminates(assets[id])
      modifies this
      ensures err.None? ==> RebuildAll(old(Snapshot()), ids, svc) == Ok(Snapshot())
      ensures err.Some? ==> RebuildAll(old(Snapshot()), ids, svc) == Err(err.value) && Snapshot() == old(Snapshot())
      ensures Valid()
    {
      err := None;
      var saved := Snapshot();
      var k := 0;
      while k < |ids|
        invariant 0 <= k <= |ids|
        invariant err.None? && Valid() && assets == saved.assets
        invariant RebuildAll(Snapshot(), ids[k..], svc) == RebuildAll(saved, ids, svc)
      {
        var id := ids[k];
        assert ids[k..][0] == id && ids[k..][1..] == ids[k + 1..];
        ghost var before := Snapshot();
        RebuildConsistent(before, id, svc);
        err := RebuildAsset(id, svc);
        if err.Some? {
          assert RebuildAll(before, ids[k..], svc) == Err(err.value);
          Restore(saved);
          return;
        }
        k := k + 1;
      }
    }
  }

  /** The assets touched by one more line: its asset when it is valued automatically. */
  lemma {:induction false} TouchedStep(l: Ledger, ids: seq<LineId>, k: nat)
    requires k < |ids| && forall lid <- ids :: Postable(l, lid)
    ensures Touched(l, ids[..k + 1])
         == Touched(l, ids[..k]) + (if l.assets[AssetOf(l, ids[k])].valuation == Auto then {AssetOf(l, ids[k])} else {})
  {
    assert ids[..k + 1] == ids[..k] + [ids[k]];
  }

  /**
   * The board-building part of `compute_depreciation_board`: it checks the
   * ending date, counts the lines, refuses a division by zero and runs the
   * loop that emits the lines.
   */
  method ScheduleBoard(t: Terms, valueResidual: real, posted: nat, anchor: Date) returns (r: Result<seq<DepLine>, Failure>)
    requires ValidDate(anchor) && (t.methodTime == End ==> t.methodPeriod > 0)
    requires t.methodEnd.Some? ==> ValidDate(t.methodEnd.value)
    ensures r == BoardOf(t, valueResidual, posted, anchor)
    ensures r.Ok? ==> r.value == Schedule(t, valueResidual, posted, UndoneCount(t, anchor), anchor)
  {
    if t.methodTime == End && t.methodEnd.None? {
      return Err(NoEndDate);
    }
    var undone := UndoneDotationNb(t, anchor);
    var s := SetupFor(t, valueResidual, posted, undone, anchor);
    if DividesByZero(s) {
      return Err(DivisionByZero);
    }
    var lines := DepreciationLines(s, StartResidual(t, valueResidual), anchor);
    return Ok(lines);
  }

  /** A rebuild that gets a board deletes the drafts and appends the board's lines. */
  lemma {:induction false} RebuildOk(l: Ledger, id: AssetId, svc: Services, board: seq<DepLine>)
    requires Consistent(l) && id in l.assets && Terminates(l.assets[id])
    requires ValueResidualOf(l, id, svc) != 0.0 && BoardFor(l, id, svc) == Ok(board)
    ensures Rebuild(l, id, svc)
         == Ok(l.(lines := WithoutDrafts(l.lines, id) + DraftRecords(id, l.nextLine, board), nextLine := l.nextLine + |board|))
  {
  }

  /**
   * The loop of `create_move` after k lines: the tables `cur` are those the
   * first k lines leave, the rest are still postable, and `touched` and
   * `last` are what the first k lines give.
   */
  ghost predicate PostedUpTo(start: Ledger, cur: Ledger, ids: seq<LineId>, k: nat, override: Option<Date>, svc: Services,
                          touched: set<AssetId>, last: Option<Date>)
  {
    k <= |ids| && (forall lid <- ids :: Postable(start, lid))
    && cur.assets == start.assets && SameRows(start.lines, cur.lines)
    && (forall lid <- ids[k..] :: Postable(cur, lid))
    && PostAll(cur, ids[k..], override, svc) == PostAll(start, ids, override, svc)
    && touched == Touched(start, ids[..k])
    && last == LastGiven(ContextDates(start, ids, override)[..k])
  }

  /** Before the loop nothing is posted. */
  lemma {:induction false} PostingStart(start: Ledger, ids: seq<LineId>, override: Option<Date>, svc: Services)
    requires forall lid <- ids :: Postable(start, lid)
    ensures PostedUpTo(start, start, ids, 0, override, svc, {}, None)
  {
    assert ids[0..] == ids;
    assert ContextDates(start, ids, override)[..0] == [];
  }

  /** After the loop every line is posted. */
  lemma {:induction false} PostingEnd(start: Ledger, cur: Ledger, ids: seq<LineId>, override: Option<Date>, svc: Services,
                                      touched: set<AssetId>, last: Option<Date>)
    requires PostedUpTo(start, cur, ids, |ids|, override, svc, touched, last)
    ensures cur == PostAll(start, ids, override, svc)
    ensures touched == Touched(start, ids)
    ensures last == LastPostingDate(start, ids, override)
  {
    assert ids[|ids|..] == [];
    assert ids[..|ids|] == ids;
    var ds := ContextDates(start, ids, override);
    assert ds[..|ids|] == ds;
  }

  /** One turn of the loop: the next line is postable, and posting it moves the loop on by one line. */
  lemma {:induction false} PostingTurn(start: Ledger, cur: Ledger, ids: seq<LineId>, k: nat, override: Option<Date>,
                                       svc: Services, touched: set<AssetId>, last: Option<Date>)
    requires PostedUpTo(start, cur, ids, k, override, svc, touched, last) && k < |ids|
    ensures Postable(cur, ids[k])
    ensures var id := AssetOf(cur, ids[k]);
      var auto := cur.assets[id].valuation == Auto;
      PostedUpTo(start, PostStep(cur, ids[k], override, svc), ids, k + 1, override, svc,
                 if auto then touched + {id} else touched,
                 if auto then ContextDate(cur, ids[k], override) else last)
  {
    TurnTables(start, cur, ids, k, override, svc, touched, last);
    TurnTouched(start, cur, ids, k, override, svc, touched, last);
    TurnLast(start, cur, ids, k, override, svc, touched, last);
  }

  /** The tables after one more line. */
  lemma {:induction false} TurnTables(start: Ledger, cur: Ledger, ids: seq<LineId>, k: nat, override: Option<Date>,
                                      svc: Services, touched: set<AssetId>, last: Option<Date>)
    requires PostedUpTo(start, cur, ids, k, override, svc, touched, last) && k < |ids|
    ensures Postable(cur, ids[k])
    ensures var next := PostStep(cur, ids[k], override, svc);
      next.assets == start.assets && SameRows(start.lines, next.lines)
      && (forall lid <- ids[k + 1..] :: Postable(next, lid))
      && PostAll(next, ids[k + 1..], override, svc) == PostAll(start, ids, override, svc)
  {
    PostLoopStep(start, cur, ids, k, override, svc);
  }

  /** The assets posted for after one more line. */
  lemma {:induction false} TurnTouched(start: Ledger, cur: Ledger, ids: seq<LineId>, k: nat, override: Option<Date>,
                                       svc: Services, touched: set<AssetId>, last: Option<Date>)
    requires PostedUpTo(start, cur, ids, k, override, svc, touched, last) && k < |ids|
    ensures Postable(cur, ids[k])
    ensures var id := AssetOf(cur, ids[k]);
      var auto := cur.assets[id].valuation == Auto;
      (if auto then touched + {id} else touched) == Touched(start, ids[..k + 1])
  {
    PostLoopStep(start, cur, ids, k, override, svc);
    TouchedStep(start, ids, k);
  }

  /** The context date after one more line. */
  lemma {:induction false} TurnLast(start: Ledger, cur: Ledger, ids: seq<LineId>, k: nat, override: Option<Date>,
                                    svc: Services, touched: set<AssetId>, last: Option<Date>)
    requires PostedUpTo(start, cur, ids, k, override, svc, touched, last) && k < |ids|
    ensures Postable(cur, ids[k])
    ensures var id := AssetOf(cur, ids[k]);
      var auto := cur.assets[id].valuation == Auto;
      (if auto then ContextDate(cur, ids[k], override) else last) == LastGiven(ContextDates(start, ids, override)[..k + 1])
  {
    PostLoopStep(start, cur, ids, k, override, svc);
    LastGivenStep(ContextDates(start, ids, override), k);
    ContextDateSameRows(start, cur, ids[k], override);
  }

  /** `LastGiven` over one more date: that date if it is given, the earlier answer otherwise. */
  lemma {:induction false} LastGivenStep(ds: seq<Option<Date>>, k: nat)
    requires k < |ds|
    ensures LastGiven(ds[..k + 1]) == if ds[k].Some? then ds[k] else LastGiven(ds[..k])
  {
    assert ds[..k + 1][..k] == ds[..k];
  }

  /** One turn of the posting loop: the next line is postable, and so are the rest once it is posted. */
  lemma {:induction false} PostLoopStep(start: Ledger, cur: Ledger, ids: seq<LineId>, k: nat,
                                        override: Option<Date>, svc: Services)
    requires k < |ids| && cur.assets == start.assets && SameRows(start.lines, cur.lines)
    requires forall lid <- ids :: Postable(start, lid)
    requires forall lid <- ids[k..] :: Postable(cur, lid)
    ensures Postable(cur, ids[k]) && AssetOf(cur, ids[k]) == AssetOf(start, ids[k])
    ensures var next := PostStep(cur, ids[k], override, svc);
      next.assets == start.assets && SameRows(start.lines, next.lines)
      && (forall lid <- ids[k + 1..] :: Postable(next, lid))
      && PostAll(cur, ids[k..], override, svc) == PostAll(next, ids[k + 1..], override, svc)
  {
    assert ids[k..][0] == ids[k] && ids[k..][1..] == ids[k + 1..];
    SameRowsLineAt(start.lines, cur.lines, ids[k]);
    var next := PostStep(cur, ids[k], override, svc);
    forall lid <- ids[k + 1..] ensures Postable(next, lid) {
      assert lid in ids[k..];
    }
  }
}
