/**
 * The depreciation board of one asset: from the asset's terms, its residual
 * value and its posted lines, the draft lines that remain to be posted, each
 * with its amount, the value left after it, the value depreciated up to it
 * and its date.
 */
module Board {
  import opened Wrappers
  import opened Calendar

  datatype Method = Linear | Degressive | Custom

  datatype TimeMethod = Number | End | Activity | Factor

  /** The depreciation terms an asset carries (copied from its category). */
  datatype Terms = Terms(
    purchaseValue: real,
    salvageValue: real,
    computation: Method,
    methodNumber: int,
    methodPeriod: int,
    methodTime: TimeMethod,
    methodEnd: Option<Date>,
    progressFactor: real,
    prorata: bool,
    purchaseDate: Date)

  /** The values of one board line (`sequence`, `amount`, `remaining_value`, `depreciated_value`, `depreciation_date`). */
  datatype DepLine = DepLine(
    sequence: int,
    amount: real,
    remainingValue: real,
    depreciatedValue: real,
    date: Date)

  /**
   * `value_residual`: the purchase value less the depreciation posted so far
   * (converted into the asset's currency) and less the salvage value.
   */
  function AmountResidual(t: Terms, postedTotal: real): (r: real)
    ensures r + postedTotal + t.salvageValue == t.purchaseValue
  {
    t.purchaseValue - postedTotal - t.salvageValue
  }

  /**
   * `residual_amount` when the board is rebuilt. Python's `c and x or y`
   * falls through to y when x is zero, so a linear asset whose residual plus
   * salvage is 0 starts from its residual.
   */
  function StartResidual(t: Terms, valueResidual: real): real {
    if t.computation == Linear && valueResidual + t.salvageValue != 0.0 then valueResidual + t.salvageValue
    else valueResidual
  }

  /**
   * `amount_to_depr` as written, with the same `c and x or y` fall-through
   * on a zero purchase value: a linear asset spreads its whole purchase value.
   */
  function AmountToDeprAsWritten(t: Terms, valueResidual: real): real {
    if t.computation == Linear && t.purchaseValue != 0.0 then t.purchaseValue else valueResidual
  }

  /**
   * `amount_to_depr` as the model uses it: a linear board without prorata
   * spreads the residual it starts from, not the whole purchase value (see
   * the Findings). Before anything is posted the two agree.
   */
  function AmountToDepr(t: Terms, valueResidual: real): (r: real)
    ensures valueResidual == AmountResidual(t, 0.0) ==> r == AmountToDeprAsWritten(t, valueResidual)
    ensures t.computation != Linear || t.prorata ==> r == AmountToDeprAsWritten(t, valueResidual)
  {
    if t.computation == Linear && !t.prorata then StartResidual(t, valueResidual)
    else AmountToDeprAsWritten(t, valueResidual)
  }

  /** What `depreciated_value` counts from: the purchase value, less the salvage value unless linear. */
  function DepreciationBase(t: Terms): real {
    t.purchaseValue - (if t.computation == Linear then 0.0 else t.salvageValue)
  }

  /**
   * The date of the first line to build: the last depreciation date under
   * prorata; otherwise one period after the latest posted line, or the 1st
   * of the purchase month when nothing is posted.
   */
  function Anchor(t: Terms, postedCount: nat, lastPosted: Date, lastDepreciation: Date): Date {
    if t.prorata then lastDepreciation
    else if postedCount > 0 then AddMonths(lastPosted, t.methodPeriod)
    else Date(t.purchaseDate.year, t.purchaseDate.month, 1)
  }

  /** What counting by ending date needs: a positive period, an ending date, and months in range. */
  predicate EndConfigured(t: Terms, anchor: Date) {
    t.methodTime == End ==>
      t.methodPeriod > 0 && t.methodEnd.Some? && 1 <= t.methodEnd.value.month <= 12 && 1 <= anchor.month <= 12
  }

  /** The number of period steps taken from d while the date is not after `end`. */
  function StepsUntil(d: Date, end: Date, period: int): nat
    requires 1 <= d.month <= 12 && 1 <= end.month <= 12 && period > 0
    decreases if DateLe(d, end) then MonthIndex(end) - MonthIndex(d) + 1 else 0
  {
    if DateLe(d, end) then
      DateLeMonthIndex(d, end);
      1 + StepsUntil(AddMonths(d, period), end, period)
    else 0
  }

  /** `undone_dotation_number` as a function of the terms and the anchor date. */
  function UndoneCount(t: Terms, anchor: Date): int
    requires EndConfigured(t, anchor)
  {
    (if t.methodTime == End then StepsUntil(anchor, t.methodEnd.value, t.methodPeriod) else t.methodNumber)
    + (if t.prorata then 1 else 0)
  }

  /**
   * StepsUntil counts exactly the dates of the walk that are not after the
   * ending date: the first n of them are on or before it, the next is after it.
   */
  lemma {:induction false} StepsUntilCounts(d: Date, end: Date, period: int)
    requires 1 <= d.month <= 12 && 1 <= end.month <= 12 && period > 0
    ensures forall j: nat :: j < StepsUntil(d, end, period) ==> DateLe(StepMonths(d, period, j), end)
    ensures !DateLe(StepMonths(d, period, StepsUntil(d, end, period)), end)
    decreases if DateLe(d, end) then MonthIndex(end) - MonthIndex(d) + 1 else 0
  {
    if DateLe(d, end) {
      DateLeMonthIndex(d, end);
      var next := AddMonths(d, period);
      StepsUntilCounts(next, end, period);
      forall j: nat | j < StepsUntil(d, end, period)
        ensures DateLe(StepMonths(d, period, j), end)
      {
        if j > 0 {
          assert StepMonths(d, period, j) == StepMonths(next, period, j - 1);
        }
      }
      assert StepMonths(d, period, StepsUntil(d, end, period))
          == StepMonths(next, period, StepsUntil(next, end, period));
    }
  }

  /** `_compute_board_undone_dotation_nb`: the while loop that counts period steps up to the ending date. */
  method UndoneDotationNb(t: Terms, anchor: Date) returns (n: int)
    requires EndConfigured(t, anchor)
    ensures n == UndoneCount(t, anchor)
    ensures t.methodTime != End ==> n == t.methodNumber + (if t.prorata then 1 else 0)
  {
    n := t.methodNumber;
    if t.methodTime == End {
      var end := t.methodEnd.value;
      var date := anchor;
      n := 0;
      while DateLe(date, end)
        invariant 1 <= date.month <= 12
        invariant n + StepsUntil(date, end, t.methodPeriod) == StepsUntil(anchor, end, t.methodPeriod)
        decreases if DateLe(date, end) then MonthIndex(end) - MonthIndex(date) + 1 else 0
      {
        DateLeMonthIndex(date, end);
        date := AddMonths(date, t.methodPeriod);
        n := n + 1;
      }
    }
    if t.prorata {
      n := n + 1;
    }
  }

  /** The inputs the board's loop holds fixed. */
  datatype Setup = Setup(terms: Terms, amountToDepr: real, undone: int, posted: nat, totalDays: int)

  /**
   * The board divides by `method_number` for a non-final linear prorata line;
   * with `method_number == 0` Python raises ZeroDivisionError there.
   */
  predicate DividesByZero(s: Setup) {
    s.terms.computation == Linear && s.terms.prorata && s.terms.methodNumber == 0 && s.posted + 1 < s.undone
  }

  predicate Runnable(s: Setup) {
    s.totalDays > 0 && !DividesByZero(s)
  }

  /**
   * `_compute_board_amount`: the amount of line i. The line numbered
   * `undone_dotation_number` takes whatever residual is left; the others take
   * a constant slice (linear) or the residual times the factor (degressive),
   * the first one scaled by the remaining days of the year under prorata.
   */
  function BoardAmount(s: Setup, i: int, residual: real, date: Date): (amount: real)
    requires Runnable(s) && s.posted < i <= s.undone && ValidDate(date)
    ensures i == s.undone ==> amount == residual
  {
    if i == s.undone then residual
    else
      match s.terms.computation
      case Linear => LinearAmount(s, i, date)
      case Degressive => DegressiveStepAmount(s, i, residual, date)
      case Custom => 0.0
  }

  /** `x / total_days * days`: the share of x for the days left in the year. */
  function Prorated(x: real, totalDays: int, days: int): (r: real)
    requires totalDays > 0
    ensures 0 <= days <= totalDays && x >= 0.0 ==> 0.0 <= r <= x
  {
    if 0 <= days <= totalDays && x >= 0.0 then ScaledFraction(x, totalDays as real, days as real); x / totalDays as real * days as real
    else x / totalDays as real * days as real
  }

  /** A linear line before the last: an equal slice, or the prorated first slice. */
  function LinearAmount(s: Setup, i: int, date: Date): real
    requires Runnable(s) && s.posted < i < s.undone && ValidDate(date)
    requires s.terms.computation == Linear
  {
    if !s.terms.prorata then s.amountToDepr / (s.undone - s.posted) as real
    else if i == 1 then
      Prorated(s.amountToDepr / s.terms.methodNumber as real, s.totalDays, RemainingDays(s.totalDays, date))
    else s.amountToDepr / s.terms.methodNumber as real
  }

  /** A degressive line before the last: the residual times the factor, prorated on the first line. */
  function DegressiveStepAmount(s: Setup, i: int, residual: real, date: Date): (r: real)
    requires Runnable(s) && s.posted < i < s.undone && ValidDate(date)
    requires s.terms.computation == Degressive
    ensures residual * s.terms.progressFactor >= 0.0
            && (s.terms.prorata && i == 1 ==> s.totalDays == TotalDays(date.year))
            ==> 0.0 <= r <= residual * s.terms.progressFactor
  {
    var x := residual * s.terms.progressFactor;
    if s.terms.prorata && i == 1 then
      Prorated(x, s.totalDays, RemainingDays(s.totalDays, date))
    else x
  }

  /** The lines numbered i..undone, starting from the given residual and date. */
  function Lines(s: Setup, i: int, residual: real, date: Date): seq<DepLine>
    requires Runnable(s) && s.posted < i && ValidDate(date)
    decreases s.undone - i + 1
  {
    if i > s.undone then []
    else
      var amount := BoardAmount(s, i, residual, date);
      var remaining := residual - amount;
      [DepLine(i, amount, remaining, DepreciationBase(s.terms) - (remaining + amount), date)]
      + Lines(s, i + 1, remaining, AddMonths(date, s.terms.methodPeriod))
  }

  function SumAmounts(ls: seq<DepLine>): real {
    if ls == [] then 0.0 else ls[0].amount + SumAmounts(ls[1..])
  }

  /** The setup `compute_depreciation_board` builds for an asset. */
  function SetupFor(t: Terms, valueResidual: real, posted: nat, undone: int, anchor: Date): Setup {
    Setup(t, AmountToDepr(t, valueResidual), undone, posted, TotalDays(anchor.year))
  }

  /** The draft lines `compute_depreciation_board` creates. */
  function Schedule(t: Terms, valueResidual: real, posted: nat, undone: int, anchor: Date): seq<DepLine>
    requires !DividesByZero(SetupFor(t, valueResidual, posted, undone, anchor)) && ValidDate(anchor)
  {
    Lines(SetupFor(t, valueResidual, posted, undone, anchor), posted + 1, StartResidual(t, valueResidual), anchor)
  }

  /** The draft lines as written, spreading `AmountToDeprAsWritten`. */
  function ScheduleAsWritten(t: Terms, valueResidual: real, posted: nat, undone: int, anchor: Date): seq<DepLine>
    requires !DividesByZero(SetupFor(t, valueResidual, posted, undone, anchor)) && ValidDate(anchor)
  {
    Lines(SetupFor(t, valueResidual, posted, undone, anchor).(amountToDepr := AmountToDeprAsWritten(t, valueResidual)),
          posted + 1, StartResidual(t, valueResidual), anchor)
  }

  /** One line per sequence number from i to undone, in ascending order. */
  lemma {:induction false} LinesShape(s: Setup, i: int, residual: real, date: Date)
    requires Runnable(s) && s.posted < i && ValidDate(date)
    ensures |Lines(s, i, residual, date)| == if i <= s.undone then s.undone - i + 1 else 0
    ensures forall k :: 0 <= k < |Lines(s, i, residual, date)| ==> Lines(s, i, residual, date)[k].sequence == i + k
    decreases s.undone - i + 1
  {
    if i <= s.undone {
      var remaining := residual - BoardAmount(s, i, residual, date);
      LinesShape(s, i + 1, remaining, AddMonths(date, s.terms.methodPeriod));
    }
  }

  /** Every line of the board falls on a calendar date. */
  lemma {:induction false} LinesValidDates(s: Setup, i: int, residual: real, date: Date)
    requires Runnable(s) && s.posted < i && ValidDate(date)
    ensures forall x <- Lines(s, i, residual, date) :: ValidDate(x.date)
    decreases s.undone - i + 1
  {
    if i <= s.undone {
      var amount := BoardAmount(s, i, residual, date);
      LinesValidDates(s, i + 1, residual - amount, AddMonths(date, s.terms.methodPeriod));
    }
  }

  /** One step of the board: the first line, then the board from the next sequence number. */
  lemma {:induction false} LinesStep(s: Setup, i: int, residual: real, date: Date)
    requires Runnable(s) && s.posted < i <= s.undone && ValidDate(date)
    ensures var amount := BoardAmount(s, i, residual, date);
      Lines(s, i, residual, date)
      == [DepLine(i, amount, residual - amount, DepreciationBase(s.terms) - ((residual - amount) + amount), date)]
         + Lines(s, i + 1, residual - amount, AddMonths(date, s.terms.methodPeriod))
  {
  }

  lemma {:induction false} SumAmountsPrefix(h: DepLine, rest: seq<DepLine>, k: nat)
    requires k <= |rest|
    ensures SumAmounts(([h] + rest)[..k + 1]) == h.amount + SumAmounts(rest[..k])
  {
    assert ([h] + rest)[..k + 1][1..] == rest[..k];
  }

  lemma {:induction false} SumAmountsCons(h: DepLine, rest: seq<DepLine>)
    ensures SumAmounts([h] + rest) == h.amount + SumAmounts(rest)
  {
    assert ([h] + rest)[1..] == rest;
  }

  /**
   * Each line's remaining value is the starting residual less the amounts
   * emitted up to and including it, and its depreciated value is the base
   * less the residual before it.
   */
  lemma {:induction false} LinesRunningTotals(s: Setup, i: int, residual: real, date: Date)
    requires Runnable(s) && s.posted < i && ValidDate(date)
    ensures var ls := Lines(s, i, residual, date);
      forall k :: 0 <= k < |ls| ==>
        ls[k].remainingValue == residual - SumAmounts(ls[..k + 1])
        && ls[k].depreciatedValue == DepreciationBase(s.terms) - (residual - SumAmounts(ls[..k]))
  {
    var ls := Lines(s, i, residual, date);
    forall k | 0 <= k < |ls|
      ensures ls[k].remainingValue == residual - SumAmounts(ls[..k + 1])
      ensures ls[k].depreciatedValue == DepreciationBase(s.terms) - (residual - SumAmounts(ls[..k]))
    {
      LinesRunningTotalAt(s, i, residual, date, k);
    }
  }

  /** The running totals of line k, by induction on k. */
  lemma {:induction false} LinesRunningTotalAt(s: Setup, i: int, residual: real, date: Date, k: nat)
    requires Runnable(s) && s.posted < i && ValidDate(date)
    requires k < |Lines(s, i, residual, date)|
    ensures var ls := Lines(s, i, residual, date);
      ls[k].remainingValue == residual - SumAmounts(ls[..k + 1])
      && ls[k].depreciatedValue == DepreciationBase(s.terms) - (residual - SumAmounts(ls[..k]))
    decreases k
  {
    var ls := Lines(s, i, residual, date);
    var amount := BoardAmount(s, i, residual, date);
    var remaining := residual - amount;
    var next := AddMonths(date, s.terms.methodPeriod);
    var rest := Lines(s, i + 1, remaining, next);
    var head := DepLine(i, amount, remaining, DepreciationBase(s.terms) - (remaining + amount), date);
    LinesStep(s, i, residual, date);
    assert ls == [head] + rest;
    SumAmountsPrefix(head, rest, k);
    if k == 0 {
      assert ls[..0] == [];
      assert rest[..0] == [];
    } else {
      LinesRunningTotalAt(s, i + 1, remaining, next, k - 1);
      SumAmountsPrefix(head, rest, k - 1);
      assert ls[k] == rest[k - 1];
    }
  }

  /**
   * The last line leaves exactly 0, so the amounts of the lines add up to the
   * starting residual.
   */
  lemma {:induction false} LinesEndAtZero(s: Setup, i: int, residual: real, date: Date)
    requires Runnable(s) && s.posted < i && ValidDate(date)
    ensures var ls := Lines(s, i, residual, date);
      ls != [] ==> ls[|ls| - 1].remainingValue == 0.0 && SumAmounts(ls) == residual
  {
    var ls := Lines(s, i, residual, date);
    if ls != [] {
      LinesLastZero(s, i, residual, date);
      LinesRunningTotals(s, i, residual, date);
      assert ls[..|ls|] == ls;
    }
  }

  /** The last line takes the whole residual left, so it leaves 0. */
  lemma {:induction false} LinesLastZero(s: Setup, i: int, residual: real, date: Date)
    requires Runnable(s) && s.posted < i && ValidDate(date)
    ensures var ls := Lines(s, i, residual, date);
      ls != [] ==> ls[|ls| - 1].remainingValue == 0.0
    decreases s.undone - i + 1
  {
    if i <= s.undone {
      var remaining := residual - BoardAmount(s, i, residual, date);
      var next := AddMonths(date, s.terms.methodPeriod);
      var ls := Lines(s, i, residual, date);
      var rest := Lines(s, i + 1, remaining, next);
      LinesStep(s, i, residual, date);
      LinesShape(s, i + 1, remaining, next);
      if i < s.undone {
        LinesLastZero(s, i + 1, remaining, next);
        assert ls[|ls| - 1] == rest[|rest| - 1];
      }
    }
  }

  /** Line k is dated k periods after the first line's date. */
  lemma {:induction false} LinesDates(s: Setup, i: int, residual: real, date: Date)
    requires Runnable(s) && s.posted < i && ValidDate(date)
    ensures var ls := Lines(s, i, residual, date);
      forall k :: 0 <= k < |ls| ==> ls[k].date == StepMonths(date, s.terms.methodPeriod, k)
    decreases s.undone - i + 1
  {
    var ls := Lines(s, i, residual, date);
    if i <= s.undone {
      var remaining := residual - BoardAmount(s, i, residual, date);
      var next := AddMonths(date, s.terms.methodPeriod);
      LinesDates(s, i + 1, remaining, next);
      forall k | 0 <= k < |ls|
        ensures ls[k].date == StepMonths(date, s.terms.methodPeriod, k)
      {
        if k > 0 {
          assert ls[k] == Lines(s, i + 1, remaining, next)[k - 1];
        }
      }
    }
  }

  /** Each line after the first leaves what the line before it left, less its own amount. */
  lemma {:induction false} LinesAdjacent(s: Setup, i: int, residual: real, date: Date, k: nat)
    requires Runnable(s) && s.posted < i && ValidDate(date)
    requires 0 < k < |Lines(s, i, residual, date)|
    ensures var ls := Lines(s, i, residual, date);
      ls[k].remainingValue == ls[k - 1].remainingValue - ls[k].amount
    decreases k
  {
    LinesNonEmpty(s, i, residual, date);
    var amount := BoardAmount(s, i, residual, date);
    var remaining := residual - amount;
    var next := AddMonths(date, s.terms.methodPeriod);
    LinesStep(s, i, residual, date);
    var ls := Lines(s, i, residual, date);
    var rest := Lines(s, i + 1, remaining, next);
    assert ls[k] == rest[k - 1];
    if k == 1 {
      LinesNonEmpty(s, i + 1, remaining, next);
      LinesStep(s, i + 1, remaining, next);
    } else {
      assert ls[k - 1] == rest[k - 2];
      LinesAdjacent(s, i + 1, remaining, next, k - 1);
    }
  }

  /** Along lines that each take a non-negative amount off the one before, the remaining value never increases. */
  lemma {:induction false} StepsNonIncreasing(ls: seq<DepLine>, j: nat, k: nat)
    requires forall m :: 0 < m < |ls| ==> ls[m].remainingValue == ls[m - 1].remainingValue - ls[m].amount
    requires forall m :: 0 <= m < |ls| ==> ls[m].amount >= 0.0
    requires j <= k < |ls|
    ensures ls[k].remainingValue <= ls[j].remainingValue
    decreases k - j
  {
    if j < k {
      StepsNonIncreasing(ls, j, k - 1);
    }
  }

  /**
   * A board whose amounts are all non-negative never raises its remaining
   * value, and since the last line leaves 0, no line leaves a negative one.
   */
  lemma {:induction false} LinesNonIncreasing(s: Setup, i: int, residual: real, date: Date)
    requires Runnable(s) && s.posted < i && ValidDate(date)
    requires forall k :: 0 <= k < |Lines(s, i, residual, date)| ==> Lines(s, i, residual, date)[k].amount >= 0.0
    ensures var ls := Lines(s, i, residual, date);
      forall j, k :: 0 <= j < k < |ls| ==> ls[k].remainingValue <= ls[j].remainingValue
    ensures forall x <- Lines(s, i, residual, date) :: x.remainingValue >= 0.0
  {
    var ls := Lines(s, i, residual, date);
    forall m | 0 < m < |ls|
      ensures ls[m].remainingValue == ls[m - 1].remainingValue - ls[m].amount
    {
      LinesAdjacent(s, i, residual, date, m);
    }
    forall j, k | 0 <= j < k < |ls|
      ensures ls[k].remainingValue <= ls[j].remainingValue
    {
      StepsNonIncreasing(ls, j, k);
    }
    if ls != [] {
      LinesLastZero(s, i, residual, date);
      StepsNonNegative(ls);
    }
  }

  /** Lines that never raise the remaining value and end at 0 never leave a negative one. */
  lemma {:induction false} StepsNonNegative(ls: seq<DepLine>)
    requires forall j, k :: 0 <= j < k < |ls| ==> ls[k].remainingValue <= ls[j].remainingValue
    requires ls != [] && ls[|ls| - 1].remainingValue == 0.0
    ensures forall x <- ls :: x.remainingValue >= 0.0
  {
    forall x <- ls
      ensures x.remainingValue >= 0.0
    {
      var k :| 0 <= k < |ls| && ls[k] == x;
      if k < |ls| - 1 {
        assert ls[|ls| - 1].remainingValue <= ls[k].remainingValue;
      }
    }
  }

  /** Moving one line from the board still to emit onto the emitted ones keeps their concatenation. */
  lemma {:induction false} LinesAdvance(s: Setup, done: seq<DepLine>, i: int, residual: real, date: Date, whole: seq<DepLine>)
    requires Runnable(s) && s.posted < i <= s.undone && ValidDate(date)
    requires done + Lines(s, i, residual, date) == whole
    ensures var amount := BoardAmount(s, i, residual, date);
      var line := DepLine(i, amount, residual - amount, DepreciationBase(s.terms) - ((residual - amount) + amount), date);
      (done + [line]) + Lines(s, i + 1, residual - amount, AddMonths(date, s.terms.methodPeriod)) == whole
  {
    LinesStep(s, i, residual, date);
    var amount := BoardAmount(s, i, residual, date);
    var line := DepLine(i, amount, residual - amount, DepreciationBase(s.terms) - ((residual - amount) + amount), date);
    var rest := Lines(s, i + 1, residual - amount, AddMonths(date, s.terms.methodPeriod));
    assert (done + [line]) + rest == done + ([line] + rest);
  }

  /**
   * The loop of `compute_depreciation_board`: for each sequence number after
   * the posted lines, take the amount, lower the residual, emit the line and
   * move the date one period on.
   */
  method DepreciationLines(s: Setup, residual0: real, anchor: Date) returns (lines: seq<DepLine>)
    requires Runnable(s) && ValidDate(anchor)
    ensures lines == Lines(s, s.posted + 1, residual0, anchor)
    ensures |lines| == if s.posted < s.undone then s.undone - s.posted else 0
    ensures forall k :: 0 <= k < |lines| ==> lines[k].sequence == s.posted + 1 + k
  {
    lines := [];
    var residual := residual0;
    var date := anchor;
    var x := s.posted;
    while x < s.undone
      invariant s.posted <= x && (x <= s.undone || x == s.posted)
      invariant ValidDate(date)
      invariant lines + Lines(s, x + 1, residual, date) == Lines(s, s.posted + 1, residual0, anchor)
    {
      var i := x + 1;
      var amount := BoardAmount(s, i, residual, date);
      LinesAdvance(s, lines, i, residual, date, Lines(s, s.posted + 1, residual0, anchor));
      residual := residual - amount;
      lines := lines + [DepLine(i, amount, residual, DepreciationBase(s.terms) - (residual + amount), date)];
      date := AddMonths(date, s.terms.methodPeriod);
      x := x + 1;
    }
    assert lines == Lines(s, s.posted + 1, residual0, anchor) by {
      LinesShape(s, x + 1, residual, date);
      assert lines + Lines(s, x + 1, residual, date) == lines;
    }
    LinesShape(s, s.posted + 1, residual0, anchor);
  }

  /**
   * Linear without prorata: when the residual is a whole number of slices
   * `amount_to_depr / (undone - posted)`, one per line left, every line, the
   * last included, is exactly one slice.
   */
  lemma {:induction false} LinearEqualSlices(s: Setup, i: int, residual: real, date: Date)
    requires Runnable(s) && s.posted < i <= s.undone + 1 && s.posted < s.undone && ValidDate(date)
    requires s.terms.computation == Linear && !s.terms.prorata
    requires LessSlices(residual, s.amountToDepr / (s.undone - s.posted) as real, s.undone - i + 1) == 0.0
    ensures var ls := Lines(s, i, residual, date);
      forall k :: 0 <= k < |ls| ==> ls[k].amount == s.amountToDepr / (s.undone - s.posted) as real
  {
    var ls := Lines(s, i, residual, date);
    forall k | 0 <= k < |ls|
      ensures ls[k].amount == s.amountToDepr / (s.undone - s.posted) as real
    {
      LinearSliceAt(s, i, residual, date, k);
    }
  }

  /** Line k of an equal-slice board is one slice, by induction on k. */
  lemma {:induction false} LinearSliceAt(s: Setup, i: int, residual: real, date: Date, k: nat)
    requires Runnable(s) && s.posted < i <= s.undone + 1 && s.posted < s.undone && ValidDate(date)
    requires s.terms.computation == Linear && !s.terms.prorata
    requires LessSlices(residual, s.amountToDepr / (s.undone - s.posted) as real, s.undone - i + 1) == 0.0
    requires k < |Lines(s, i, residual, date)|
    ensures Lines(s, i, residual, date)[k].amount == s.amountToDepr / (s.undone - s.posted) as real
    decreases k
  {
    var c := s.amountToDepr / (s.undone - s.posted) as real;
    var amount := BoardAmount(s, i, residual, date);
    var remaining := residual - amount;
    var next := AddMonths(date, s.terms.methodPeriod);
    var ls := Lines(s, i, residual, date);
    assert i <= s.undone && ls[0].amount == amount && ls[1..] == Lines(s, i + 1, remaining, next) by {
      LinesNonEmpty(s, i, residual, date);
      LinesStep(s, i, residual, date);
    }
    if i == s.undone {
      assert LessSlices(residual, c, 1) == residual - c;
    }
    assert amount == c;
    if k > 0 {
      assert ls[k] == Lines(s, i + 1, remaining, next)[k - 1];
      LinearSliceAt(s, i + 1, remaining, next, k - 1);
    }
  }

  lemma {:induction false} SliceStep(m: real, slice: real)
    ensures m * slice - slice == (m - 1.0) * slice
  {
  }

  /**
   * A linear board without prorata built before anything is posted: the
   * residual is the purchase value less the salvage value, and the purchase
   * value is cut into `undone` equal amounts (1200 over 12 periods gives
   * twelve lines of 100).
   */
  lemma {:induction false} LinearBoardFromScratch(t: Terms, undone: int, anchor: Date)
    requires t.computation == Linear && !t.prorata && t.purchaseValue != 0.0 && undone > 0
    requires ValidDate(anchor)
    ensures var ls := Schedule(t, AmountResidual(t, 0.0), 0, undone, anchor);
      |ls| == undone && forall k :: 0 <= k < |ls| ==> ls[k].amount == t.purchaseValue / undone as real
  {
    var vr := AmountResidual(t, 0.0);
    var s := SetupFor(t, vr, 0, undone, anchor);
    assert StartResidual(t, vr) == t.purchaseValue;
    assert s.amountToDepr == t.purchaseValue;
    assert LessSlices(t.purchaseValue, t.purchaseValue / undone as real, undone) == 0.0 by {
      LessSlicesClosed(t.purchaseValue, t.purchaseValue / undone as real, undone);
      assert t.purchaseValue == undone as real * (t.purchaseValue / undone as real);
    }
    LinearEqualSlices(s, 1, t.purchaseValue, anchor);
    LinesShape(s, 1, t.purchaseValue, anchor);
  }

  /** What is left of r after n slices of c are taken off it, one at a time. */
  function LessSlices(r: real, c: real, n: nat): real
    decreases n
  {
    if n == 0 then r else LessSlices(r - c, c, n - 1)
  }

  /** `LessSlices` in closed form. */
  lemma {:induction false} LessSlicesClosed(r: real, c: real, n: nat)
    ensures LessSlices(r, c, n) == r - n as real * c
    decreases n
  {
    if n > 0 {
      LessSlicesClosed(r - c, c, n - 1);
      SliceStep(n as real, c);
      assert (n - 1) as real == n as real - 1.0;
    }
  }

  /**
   * Linear without prorata: every line but the last takes one slice
   * `amount_to_depr / (undone - posted)`, so line k leaves the starting
   * residual less k + 1 slices.
   */
  lemma {:induction false} LinearRemainingAt(s: Setup, i: int, residual: real, date: Date, k: nat)
    requires Runnable(s) && s.posted < i && ValidDate(date)
    requires s.terms.computation == Linear && !s.terms.prorata
    requires k < |Lines(s, i, residual, date)| - 1
    ensures Lines(s, i, residual, date)[k].amount == s.amountToDepr / (s.undone - s.posted) as real
    ensures Lines(s, i, residual, date)[k].remainingValue
         == LessSlices(residual, s.amountToDepr / (s.undone - s.posted) as real, k + 1)
    decreases k
  {
    var slice := s.amountToDepr / (s.undone - s.posted) as real;
    var remaining := residual - slice;
    var next := AddMonths(date, s.terms.methodPeriod);
    var ls := Lines(s, i, residual, date);
    var rest := Lines(s, i + 1, remaining, next);
    assert ls[0].amount == slice && ls[0].remainingValue == remaining && ls[1..] == rest by {
      LinesNonEmpty(s, i, residual, date);
      assert BoardAmount(s, i, residual, date) == slice;
      LinesStep(s, i, residual, date);
    }
    if k > 0 {
      assert ls[k] == rest[k - 1];
      LinearRemainingAt(s, i + 1, remaining, next, k - 1);
    }
  }

  /**
   * As written, a linear board without prorata rebuilt after postings still
   * cuts the whole purchase value p into the n lines left to build. Each but
   * the last takes p / n, so the line before the last leaves p / n less the
   * total P that `_amount_residual` subtracts (twice the depreciation posted,
   * since both items of an entry carry the asset), and the last line takes
   * exactly that. Once P exceeds p / n, the remaining value goes negative and
   * the last line raises it back to 0: 600 over 6 periods with the first line
   * of 100 posted gives P = 200 and the lines 120, 120, 120, 120 and -80.
   */
  lemma {:induction false} LinearRebuildAsWritten(t: Terms, postedTotal: real, posted: nat, undone: int, anchor: Date)
    requires t.computation == Linear && !t.prorata && t.purchaseValue != 0.0 && postedTotal != t.purchaseValue
    requires ValidDate(anchor) && posted + 2 <= undone
    ensures var ls := ScheduleAsWritten(t, AmountResidual(t, postedTotal), posted, undone, anchor);
      var n := undone - posted;
      |ls| == n
      && ls[n - 2].remainingValue == t.purchaseValue / n as real - postedTotal
      && ls[n - 1].amount == t.purchaseValue / n as real - postedTotal
      && ls[n - 1].remainingValue == 0.0
      && (postedTotal > t.purchaseValue / n as real ==> ls[n - 2].remainingValue < ls[n - 1].remainingValue)
  {
    var vr := AmountResidual(t, postedTotal);
    var s := SetupFor(t, vr, posted, undone, anchor).(amountToDepr := AmountToDeprAsWritten(t, vr));
    LinearAsWrittenTail(s, anchor, t.purchaseValue - postedTotal, postedTotal);
  }

  /** The last two lines of a linear board without prorata spreading p from the residual p - P. */
  lemma {:induction false} LinearAsWrittenTail(s: Setup, date: Date, residual: real, postedTotal: real)
    requires Runnable(s) && s.posted + 2 <= s.undone && ValidDate(date)
    requires s.terms.computation == Linear && !s.terms.prorata
    requires residual == s.amountToDepr - postedTotal
    ensures var ls := Lines(s, s.posted + 1, residual, date);
      var n := s.undone - s.posted;
      var c := s.amountToDepr / n as real;
      |ls| == n && ls[n - 2].remainingValue == c - postedTotal && ls[n - 1].amount == c - postedTotal
      && ls[n - 1].remainingValue == 0.0
  {
    LinearLastLine(s, s.posted + 1, residual, date);
    SliceGap(s.amountToDepr, postedTotal, s.undone - s.posted);
  }

  /**
   * Linear without prorata, with at least two lines: the line before the
   * last leaves the residual less all the slices before it, and the last
   * line takes exactly that and leaves 0.
   */
  lemma {:induction false} LinearLastLine(s: Setup, i: int, residual: real, date: Date)
    requires Runnable(s) && s.posted < i && i < s.undone && ValidDate(date)
    requires s.terms.computation == Linear && !s.terms.prorata
    ensures var ls := Lines(s, i, residual, date);
      var n := |ls|;
      n == s.undone - i + 1
      && ls[n - 2].remainingValue == LessSlices(residual, s.amountToDepr / (s.undone - s.posted) as real, n - 1)
      && ls[n - 1].amount == ls[n - 2].remainingValue
      && ls[n - 1].remainingValue == 0.0
  {
    var ls := Lines(s, i, residual, date);
    LinesShape(s, i, residual, date);
    var n := |ls|;
    LinearRemainingAt(s, i, residual, date, n - 2);
    LinesLastZero(s, i, residual, date);
    LinesAdjacent(s, i, residual, date, n - 1);
  }

  /** n - 1 slices of p / n taken from p - P leave p / n - P. */
  lemma {:induction false} SliceGap(p: real, postedTotal: real, n: int)
    requires n > 0
    ensures LessSlices(p - postedTotal, p / n as real, n - 1) == p / n as real - postedTotal
  {
    var c := p / n as real;
    LessSlicesClosed(p - postedTotal, c, n - 1);
    assert n as real * c == p;
    SliceStep(n as real, c);
    assert (n - 1) as real == n as real - 1.0;
  }

  /**
   * The corrected linear board without prorata: every line takes the same
   * slice of the starting residual, `residual / (undone - posted)`, however
   * many lines are posted. From a non-negative residual no amount is
   * negative, no line leaves a negative value, and the remaining value never
   * increases along the board.
   */
  lemma {:induction false} LinearRebuildMonotone(t: Terms, valueResidual: real, posted: nat, undone: int, anchor: Date)
    requires t.computation == Linear && !t.prorata && ValidDate(anchor) && posted < undone
    requires StartResidual(t, valueResidual) >= 0.0
    ensures var ls := Schedule(t, valueResidual, posted, undone, anchor);
      |ls| == undone - posted
      && (forall k :: 0 <= k < |ls| ==> ls[k].amount == StartResidual(t, valueResidual) / (undone - posted) as real)
      && (forall k :: 0 <= k < |ls| ==> ls[k].amount >= 0.0 && ls[k].remainingValue >= 0.0)
      && (forall j, k :: 0 <= j < k < |ls| ==> ls[k].remainingValue <= ls[j].remainingValue)
  {
    var s := SetupFor(t, valueResidual, posted, undone, anchor);
    var r := StartResidual(t, valueResidual);
    var n := undone - posted;
    var c := r / n as real;
    assert s.amountToDepr == r;
    assert LessSlices(r, c, n) == 0.0 by {
      LessSlicesClosed(r, c, n);
      assert r == n as real * c;
    }
    LinesShape(s, posted + 1, r, anchor);
    LinearEqualSlices(s, posted + 1, r, anchor);
    LinesNonIncreasing(s, posted + 1, r, anchor);
    var ls := Lines(s, posted + 1, r, anchor);
    assert forall k :: 0 <= k < |ls| ==> ls[k] in ls;
  }

  /**
   * Linear with prorata, from the second line on: each line before the last
   * takes one period slice `amount_to_depr / method_number`, and the last
   * takes what is left, which the hypothesis keeps non-negative.
   */
  lemma {:induction false} ProrataAmountsNonNeg(s: Setup, i: int, residual: real, date: Date)
    requires Runnable(s) && s.posted < i && 2 <= i && ValidDate(date)
    requires s.terms.computation == Linear && s.terms.prorata && s.terms.methodNumber > 0
    requires s.amountToDepr / s.terms.methodNumber as real >= 0.0
    requires i <= s.undone ==> LessSlices(residual, s.amountToDepr / s.terms.methodNumber as real, s.undone - i) >= 0.0
    ensures forall k :: 0 <= k < |Lines(s, i, residual, date)| ==> Lines(s, i, residual, date)[k].amount >= 0.0
    decreases s.undone - i + 1
  {
    if i <= s.undone {
      var c := s.amountToDepr / s.terms.methodNumber as real;
      var amount := BoardAmount(s, i, residual, date);
      var remaining := residual - amount;
      var next := AddMonths(date, s.terms.methodPeriod);
      LinesStep(s, i, residual, date);
      var ls := Lines(s, i, residual, date);
      var rest := Lines(s, i + 1, remaining, next);
      if i < s.undone {
        assert amount == c;
        assert LessSlices(residual, c, s.undone - i) == LessSlices(remaining, c, s.undone - (i + 1));
        ProrataAmountsNonNeg(s, i + 1, remaining, next);
      } else {
        LinesShape(s, i + 1, remaining, next);
      }
      forall k | 0 <= k < |ls|
        ensures ls[k].amount >= 0.0
      {
        if k > 0 {
          assert ls[k] == rest[k - 1];
        }
      }
    }
  }

  /**
   * A linear prorata board built from scratch with `method_number + 1`
   * lines: the first takes a prorated slice, the middle ones a full slice
   * each and the last what is left, so from a positive purchase value no
   * amount and no remaining value is negative, and the remaining value never
   * increases.
   */
  lemma {:induction false} ProrataLinearMonotone(t: Terms, anchor: Date)
    requires t.computation == Linear && t.prorata && t.methodNumber > 0 && t.purchaseValue > 0.0
    requires ValidDate(anchor)
    ensures var ls := Schedule(t, AmountResidual(t, 0.0), 0, t.methodNumber + 1, anchor);
      |ls| == t.methodNumber + 1
      && (forall k :: 0 <= k < |ls| ==> ls[k].amount >= 0.0 && ls[k].remainingValue >= 0.0)
      && (forall j, k :: 0 <= j < k < |ls| ==> ls[k].remainingValue <= ls[j].remainingValue)
  {
    var vr := AmountResidual(t, 0.0);
    var s := SetupFor(t, vr, 0, t.methodNumber + 1, anchor);
    var r := StartResidual(t, vr);
    assert r == t.purchaseValue;
    assert s.amountToDepr == t.purchaseValue;
    ProrataFromScratchAmounts(s, r, anchor);
    LinesShape(s, 1, r, anchor);
    LinesNonIncreasing(s, 1, r, anchor);
    var ls := Lines(s, 1, r, anchor);
    assert forall k :: 0 <= k < |ls| ==> ls[k] in ls;
  }

  /** The prorated first slice lies between 0 and one slice, and leaves at least `undone - 2` slices. */
  lemma {:induction false} ProrataFirstAmount(s: Setup, residual: real, date: Date)
    requires Runnable(s) && s.posted == 0 && ValidDate(date)
    requires s.terms.computation == Linear && s.terms.prorata && s.terms.methodNumber > 0
    requires s.undone == s.terms.methodNumber + 1 && s.totalDays == TotalDays(date.year)
    requires residual == s.amountToDepr && s.amountToDepr > 0.0
    ensures var c := s.amountToDepr / s.terms.methodNumber as real;
      0.0 <= BoardAmount(s, 1, residual, date) <= c && c >= 0.0
      && LessSlices(residual - BoardAmount(s, 1, residual, date), c, s.undone - 2) >= 0.0
  {
    var n := s.terms.methodNumber;
    var c := s.amountToDepr / n as real;
    var first := BoardAmount(s, 1, residual, date);
    assert 0.0 <= first <= c && c >= 0.0 by {
      assert first == Prorated(c, s.totalDays, RemainingDays(s.totalDays, date));
    }
    assert LessSlices(residual - first, c, n - 1) == c - first by {
      SliceGap(residual, 0.0, n);
      LessSlicesShift(residual, first, c, n - 1);
    }
  }

  /** Taking d off before the slices takes d off the result. */
  lemma {:induction false} LessSlicesShift(r: real, d: real, c: real, n: nat)
    ensures LessSlices(r - d, c, n) == LessSlices(r, c, n) - d
    decreases n
  {
    if n > 0 {
      assert r - d - c == (r - c) - d;
      LessSlicesShift(r - c, d, c, n - 1);
    }
  }

  /**
   * The amounts of a linear prorata board built from scratch over the whole
   * `amount_to_depr`: the first is a prorated slice, no more than one slice,
   * so the lines after it start from at least `method_number - 1` slices.
   */
  lemma {:induction false} ProrataFromScratchAmounts(s: Setup, residual: real, date: Date)
    requires Runnable(s) && s.posted == 0 && ValidDate(date)
    requires s.terms.computation == Linear && s.terms.prorata && s.terms.methodNumber > 0
    requires s.undone == s.terms.methodNumber + 1 && s.totalDays == TotalDays(date.year)
    requires residual == s.amountToDepr && s.amountToDepr > 0.0
    ensures forall k :: 0 <= k < |Lines(s, 1, residual, date)| ==> Lines(s, 1, residual, date)[k].amount >= 0.0
  {
    var first := BoardAmount(s, 1, residual, date);
    var next := AddMonths(date, s.terms.methodPeriod);
    ProrataFirstAmount(s, residual, date);
    LinesStep(s, 1, residual, date);
    ProrataAmountsNonNeg(s, 2, residual - first, next);
    var ls := Lines(s, 1, residual, date);
    var rest := Lines(s, 2, residual - first, next);
    forall k | 0 <= k < |ls|
      ensures ls[k].amount >= 0.0
    {
      if k > 0 {
        assert ls[k] == rest[k - 1];
      }
    }
  }

  function Pow(x: real, k: nat): real {
    if k == 0 then 1.0 else x * Pow(x, k - 1)
  }

  /** Degressive without prorata, a line before the last takes the residual times the factor. */
  lemma {:induction false} DegressiveAmount(s: Setup, i: int, residual: real, date: Date)
    requires Runnable(s) && s.posted < i < s.undone && ValidDate(date)
    requires s.terms.computation == Degressive && !s.terms.prorata
    ensures BoardAmount(s, i, residual, date) == residual * s.terms.progressFactor
  {
  }

  /** The residual left after n steps that each keep the fraction x of it. */
  function Geometric(r: real, x: real, n: nat): real
    decreases n
  {
    if n == 0 then r else Geometric(r * x, x, n - 1)
  }

  /** `Geometric` in closed form. */
  lemma {:induction false} GeometricClosedForm(r: real, x: real, n: nat)
    ensures Geometric(r, x, n) == r * Pow(x, n)
    decreases n
  {
    if n > 0 {
      GeometricClosedForm(r * x, x, n - 1);
      assert Pow(x, n) == x * Pow(x, n - 1);
    }
  }

  lemma {:induction false} KeepFraction(r: real, f: real)
    ensures r - r * f == r * (1.0 - f)
  {
  }

  /** A non-empty board starts at a sequence number that is not past `undone`. */
  lemma {:induction false} LinesNonEmpty(s: Setup, i: int, residual: real, date: Date)
    requires Runnable(s) && s.posted < i && ValidDate(date)
    ensures |Lines(s, i, residual, date)| > 0 ==> i <= s.undone
    ensures |Lines(s, i, residual, date)| > 1 ==> i < s.undone
  {
    LinesShape(s, i, residual, date);
  }

  /**
   * Degressive without prorata: after line k (counted from 0), every line
   * but the last leaves the starting residual times `(1 - factor)^(k+1)`.
   */
  lemma {:induction false} DegressiveRemainingAt(s: Setup, i: int, residual: real, date: Date, k: nat)
    requires Runnable(s) && s.posted < i && ValidDate(date)
    requires s.terms.computation == Degressive && !s.terms.prorata
    requires k < |Lines(s, i, residual, date)| - 1
    ensures Lines(s, i, residual, date)[k].remainingValue == Geometric(residual, 1.0 - s.terms.progressFactor, k + 1)
    decreases k
  {
    var x := 1.0 - s.terms.progressFactor;
    LinesNonEmpty(s, i, residual, date);
    DegressiveAmount(s, i, residual, date);
    var remaining := residual - BoardAmount(s, i, residual, date);
    KeepFraction(residual, s.terms.progressFactor);
    assert remaining == residual * x;
    var next := AddMonths(date, s.terms.methodPeriod);
    LinesStep(s, i, residual, date);
    var ls := Lines(s, i, residual, date);
    var rest := Lines(s, i + 1, remaining, next);
    assert Geometric(residual, x, k + 1) == Geometric(residual * x, x, k);
    if k == 0 {
      assert ls[0].remainingValue == remaining;
    } else {
      assert ls[k] == rest[k - 1];
      DegressiveRemainingAt(s, i + 1, remaining, next, k - 1);
    }
  }

  /**
   * Degressive without prorata: every line but the last leaves the starting
   * residual times `(1 - factor)^(k+1)`. The factor is used as given: a
   * factor of 30.0 multiplies the residual by -29 at each step.
   */
  lemma {:induction false} DegressiveGeometric(s: Setup, i: int, residual: real, date: Date)
    requires Runnable(s) && s.posted < i && ValidDate(date)
    requires s.terms.computation == Degressive && !s.terms.prorata
    ensures var ls := Lines(s, i, residual, date);
      forall k :: 0 <= k < |ls| - 1 ==>
        ls[k].remainingValue == residual * Pow(1.0 - s.terms.progressFactor, k + 1)
  {
    var ls := Lines(s, i, residual, date);
    forall k | 0 <= k < |ls| - 1
      ensures ls[k].remainingValue == residual * Pow(1.0 - s.terms.progressFactor, k + 1)
    {
      DegressiveRemainingClosed(s, i, residual, date, k);
    }
  }

  lemma {:induction false} DegressiveRemainingClosed(s: Setup, i: int, residual: real, date: Date, k: nat)
    requires Runnable(s) && s.posted < i && ValidDate(date)
    requires s.terms.computation == Degressive && !s.terms.prorata
    requires k < |Lines(s, i, residual, date)| - 1
    ensures Lines(s, i, residual, date)[k].remainingValue == residual * Pow(1.0 - s.terms.progressFactor, k + 1)
  {
    var x := 1.0 - s.terms.progressFactor;
    DegressiveRemainingAt(s, i, residual, date, k);
    GeometricClosedForm(residual, x, k + 1);
    var g := Geometric(residual, x, k + 1);
    assert Lines(s, i, residual, date)[k].remainingValue == g;
  }

  /** A fraction `days / totalDays` (below 1) of a non-negative amount lies between 0 and the amount. */
  lemma {:induction false} ScaledFraction(x: real, totalDays: real, days: real)
    requires x >= 0.0 && 0.0 <= days <= totalDays && totalDays > 0.0
    ensures 0.0 <= x / totalDays * days <= x
  {
    var q := x / totalDays;
    assert q >= 0.0;
    assert q * days <= q * totalDays;
    assert q * totalDays == x;
  }

  lemma {:induction false} FactorBounds(r: real, f: real)
    requires r >= 0.0 && 0.0 <= f <= 1.0
    ensures 0.0 <= r * f <= r
  {
  }

  /** A degressive amount with a factor in [0, 1] lies between 0 and the residual. */
  lemma {:induction false} DegressiveAmountBounds(s: Setup, i: int, residual: real, date: Date)
    requires Runnable(s) && s.posted < i <= s.undone && ValidDate(date)
    requires s.terms.computation == Degressive && 0.0 <= s.terms.progressFactor <= 1.0 && residual >= 0.0
    requires s.terms.prorata && i == 1 ==> s.totalDays == TotalDays(date.year)
    ensures 0.0 <= BoardAmount(s, i, residual, date) <= residual
  {
    if i < s.undone {
      var r := DegressiveStepAmount(s, i, residual, date);
      assert BoardAmount(s, i, residual, date) == r;
      DegressiveStepWithin(s, i, residual, date);
    }
  }

  lemma {:induction false} DegressiveStepWithin(s: Setup, i: int, residual: real, date: Date)
    requires Runnable(s) && s.posted < i < s.undone && ValidDate(date)
    requires s.terms.computation == Degressive && 0.0 <= s.terms.progressFactor <= 1.0 && residual >= 0.0
    requires s.terms.prorata && i == 1 ==> s.totalDays == TotalDays(date.year)
    ensures 0.0 <= DegressiveStepAmount(s, i, residual, date) <= residual
  {
    var x := residual * s.terms.progressFactor;
    FactorBounds(residual, s.terms.progressFactor);
    assert x <= residual;
  }

  /** Under the monotone hypotheses each line's amount and remaining value lie in [0, residual]. */
  lemma {:induction false} DegressiveLineBounds(s: Setup, i: int, residual: real, date: Date, k: nat)
    requires Runnable(s) && s.posted < i && ValidDate(date)
    requires s.terms.computation == Degressive && 0.0 <= s.terms.progressFactor <= 1.0 && residual >= 0.0
    requires s.terms.prorata && i == 1 ==> s.totalDays == TotalDays(date.year)
    requires k < |Lines(s, i, residual, date)|
    ensures var l := Lines(s, i, residual, date)[k];
      0.0 <= l.amount && 0.0 <= l.remainingValue <= residual
    decreases k
  {
    LinesNonEmpty(s, i, residual, date);
    var amount := BoardAmount(s, i, residual, date);
    DegressiveAmountBounds(s, i, residual, date);
    var remaining := residual - amount;
    var next := AddMonths(date, s.terms.methodPeriod);
    LinesStep(s, i, residual, date);
    if k > 0 {
      assert Lines(s, i, residual, date)[k] == Lines(s, i + 1, remaining, next)[k - 1];
      DegressiveLineBounds(s, i + 1, remaining, next, k - 1);
    }
  }

  /** Under the monotone hypotheses a later line never leaves more than an earlier one. */
  lemma {:induction false} DegressiveNonIncreasing(s: Setup, i: int, residual: real, date: Date, j: nat, k: nat)
    requires Runnable(s) && s.posted < i && ValidDate(date)
    requires s.terms.computation == Degressive && 0.0 <= s.terms.progressFactor <= 1.0 && residual >= 0.0
    requires s.terms.prorata && i == 1 ==> s.totalDays == TotalDays(date.year)
    requires j < k < |Lines(s, i, residual, date)|
    ensures Lines(s, i, residual, date)[k].remainingValue <= Lines(s, i, residual, date)[j].remainingValue
    decreases j
  {
    LinesNonEmpty(s, i, residual, date);
    var amount := BoardAmount(s, i, residual, date);
    DegressiveAmountBounds(s, i, residual, date);
    var remaining := residual - amount;
    var next := AddMonths(date, s.terms.methodPeriod);
    LinesStep(s, i, residual, date);
    var ls := Lines(s, i, residual, date);
    var rest := Lines(s, i + 1, remaining, next);
    assert ls[k] == rest[k - 1];
    if j == 0 {
      DegressiveLineBounds(s, i + 1, remaining, next, k - 1);
    } else {
      assert ls[j] == rest[j - 1];
      DegressiveNonIncreasing(s, i + 1, remaining, next, j - 1, k - 1);
    }
  }

  /**
   * Degressive with a factor between 0 and 1 and a non-negative residual:
   * every amount is non-negative, no line leaves a negative residual, and
   * the remaining value never increases along the board. Under prorata this
   * needs the board's own `total_days` for the first line's year.
   */
  lemma {:induction false} DegressiveMonotone(s: Setup, i: int, residual: real, date: Date)
    requires Runnable(s) && s.posted < i && ValidDate(date)
    requires s.terms.computation == Degressive && 0.0 <= s.terms.progressFactor <= 1.0 && residual >= 0.0
    requires s.terms.prorata && i == 1 ==> s.totalDays == TotalDays(date.year)
    ensures var ls := Lines(s, i, residual, date);
      forall k :: 0 <= k < |ls| ==> 0.0 <= ls[k].amount && 0.0 <= ls[k].remainingValue <= residual
    ensures var ls := Lines(s, i, residual, date);
      forall j, k :: 0 <= j < k < |ls| ==> ls[k].remainingValue <= ls[j].remainingValue
  {
    var ls := Lines(s, i, residual, date);
    forall k | 0 <= k < |ls|
      ensures 0.0 <= ls[k].amount && 0.0 <= ls[k].remainingValue <= residual
    {
      DegressiveLineBounds(s, i, residual, date, k);
    }
    forall j, k | 0 <= j < k < |ls|
      ensures ls[k].remainingValue <= ls[j].remainingValue
    {
      DegressiveNonIncreasing(s, i, residual, date, j, k);
    }
  }

  /**
   * Under the ending-date time method without prorata, every line of the
   * board is dated on or before `method_end`.
   */
  lemma {:induction false} EndBoardWithinEndDate(t: Terms, valueResidual: real, posted: nat, anchor: Date)
    requires t.methodTime == End && !t.prorata && ValidDate(anchor) && EndConfigured(t, anchor)
    requires !DividesByZero(SetupFor(t, valueResidual, posted, UndoneCount(t, anchor), anchor))
    ensures var ls := Schedule(t, valueResidual, posted, UndoneCount(t, anchor), anchor);
      forall k :: 0 <= k < |ls| ==> DateLe(ls[k].date, t.methodEnd.value)
  {
    var undone := UndoneCount(t, anchor);
    var s := SetupFor(t, valueResidual, posted, undone, anchor);
    var r := StartResidual(t, valueResidual);
    LinesShape(s, posted + 1, r, anchor);
    LinesDates(s, posted + 1, r, anchor);
    StepsUntilCounts(anchor, t.methodEnd.value, t.methodPeriod);
  }

  /**
   * Linear conservation over the whole schedule: when the posted amounts
   * total P and value_residual is derived from P, the rebuilt draft lines
   * bring the total to the purchase value (unless everything is already
   * posted, where the `and/or` fall-through applies).
   */
  lemma {:induction false} LinearScheduleConservation(t: Terms, postedTotal: real, posted: nat, undone: int, anchor: Date)
    requires t.computation == Linear && postedTotal != t.purchaseValue && ValidDate(anchor)
    requires posted < undone
    requires !DividesByZero(SetupFor(t, AmountResidual(t, postedTotal), posted, undone, anchor))
    ensures postedTotal + SumAmounts(Schedule(t, AmountResidual(t, postedTotal), posted, undone, anchor)) == t.purchaseValue
  {
    var vr := AmountResidual(t, postedTotal);
    var s := SetupFor(t, vr, posted, undone, anchor);
    LinesShape(s, posted + 1, StartResidual(t, vr), anchor);
    LinesEndAtZero(s, posted + 1, StartResidual(t, vr), anchor);
  }

  /**
   * The prorata first line of a board built from scratch is the period slice
   * scaled by the days left in the anchor year over `total_days`, and the
   * board gets one line more than `method_number`.
   */
  lemma {:induction false} ProrataLinearFirstLine(t: Terms, valueResidual: real, anchor: Date)
    requires t.computation == Linear && t.prorata && t.methodTime == Number && t.methodNumber > 0
    requires ValidDate(anchor)
    ensures UndoneCount(t, anchor) == t.methodNumber + 1
    ensures |Schedule(t, valueResidual, 0, t.methodNumber + 1, anchor)| == t.methodNumber + 1
    ensures Schedule(t, valueResidual, 0, t.methodNumber + 1, anchor)[0].amount
      == Prorated(AmountToDepr(t, valueResidual) / t.methodNumber as real, TotalDays(anchor.year),
                  RemainingDays(TotalDays(anchor.year), anchor))
  {
    ScheduleFromScratch(t, valueResidual, t.methodNumber + 1, anchor);
    ProrataLinearSlice(t, valueResidual, anchor);
  }

  /** A board built with nothing posted has `undone` lines and starts with the first amount. */
  lemma {:induction false} ScheduleFromScratch(t: Terms, valueResidual: real, undone: int, anchor: Date)
    requires 1 <= undone && ValidDate(anchor)
    requires !DividesByZero(SetupFor(t, valueResidual, 0, undone, anchor))
    ensures |Schedule(t, valueResidual, 0, undone, anchor)| == undone
    ensures Schedule(t, valueResidual, 0, undone, anchor)[0].amount
      == BoardAmount(SetupFor(t, valueResidual, 0, undone, anchor), 1, StartResidual(t, valueResidual), anchor)
  {
    var s := SetupFor(t, valueResidual, 0, undone, anchor);
    LinesShape(s, 1, StartResidual(t, valueResidual), anchor);
    LinesStep(s, 1, StartResidual(t, valueResidual), anchor);
  }

  /** The amount of the first prorata linear line of a board built from scratch. */
  lemma {:induction false} ProrataLinearSlice(t: Terms, valueResidual: real, anchor: Date)
    requires t.computation == Linear && t.prorata && t.methodNumber > 0 && ValidDate(anchor)
    ensures BoardAmount(SetupFor(t, valueResidual, 0, t.methodNumber + 1, anchor), 1, StartResidual(t, valueResidual), anchor)
      == Prorated(AmountToDepr(t, valueResidual) / t.methodNumber as real, TotalDays(anchor.year),
                  RemainingDays(TotalDays(anchor.year), anchor))
  {
    var s := SetupFor(t, valueResidual, 0, t.methodNumber + 1, anchor);
    ProrataLinearAmount(s, StartResidual(t, valueResidual), anchor);
  }

  /** The first prorata linear line takes the period slice scaled by the days left in the year. */
  lemma {:induction false} ProrataLinearAmount(s: Setup, residual: real, date: Date)
    requires Runnable(s) && s.posted == 0 && 1 < s.undone && ValidDate(date)
    requires s.terms.computation == Linear && s.terms.prorata
    ensures BoardAmount(s, 1, residual, date)
      == Prorated(s.amountToDepr / s.terms.methodNumber as real, s.totalDays, RemainingDays(s.totalDays, date))
  {
  }
}
