/**
 * The legacy dashboard's goal reconciler. Its target row comes from a
 * stored `totalConsumptionTarget`, its gap total is accumulated month by
 * month, and its two progress figures divide without a guard, so they are
 * JavaScript numbers that may be infinite or NaN.
 */
module LegacyGoals {
  import opened Calendar
  import opened Aggregate
  import opened Goals
  import opened LegacyFeeds

  /** The legacy settings, with the target stored rather than derived. */
  datatype LegacyDashboardData = LegacyDashboardData(
    territoryOwner: string,
    territoryOwnerEmail: string,
    neTarget: real,
    consumptionBaseline: real,
    consumptionGrowthTarget: real,
    totalConsumptionTarget: real)

  /** The legacy target row: `TargetRow` of the stored target. */
  lemma LegacyTargetRow(data: LegacyDashboardData)
    ensures forall m: Month :: TargetRow(data.totalConsumptionTarget).byMonth[m] == data.totalConsumptionTarget / 12.0
    ensures TargetRow(data.totalConsumptionTarget).total == data.totalConsumptionTarget
  {
    TargetRowAddsUp(DashboardData(data.territoryOwnerEmail, data.neTarget, data.totalConsumptionTarget, 0.0));
  }

  /** The legacy gap row: the monthly gaps, with `total` their sum. */
  function MonthlyGaps(targetRow: Totals, ledger: Totals): Totals
    requires Complete(targetRow.byMonth) && Complete(ledger.byMonth)
  {
    Totals(GapMonths(targetRow, ledger), MonthSum(GapMonths(targetRow, ledger), Months))
  }

  /** Legacy `gapToGoal`: for each month in order, store target minus actual and add it to `total`. */
  method LegacyGapToGoal(targetRow: Totals, ledger: Totals) returns (gap: Totals)
    requires Complete(targetRow.byMonth) && Complete(ledger.byMonth)
    ensures gap == MonthlyGaps(targetRow, ledger)
  {
    var byMonth: map<Month, real> := map[];
    var total := 0.0;
    ghost var target := GapMonths(targetRow, ledger);
    for i := 0 to |Months|
      invariant byMonth == Filled(target, Months[..i])
      invariant total == MonthSum(target, Months[..i])
    {
      var month := Months[i];
      var gapForMonth := targetRow.byMonth[month] - ledger.byMonth[month];
      assert gapForMonth == target[month];
      FilledStep(target, i);
      byMonth := byMonth[month := gapForMonth];
      total := total + gapForMonth;
    }
    assert Months[..|Months|] == Months;
    FilledAllMonths(target);
    return Totals(byMonth, total);
  }

  /**
   * With the target row of a stored target and a ledger whose `total` is the
   * sum of its months, the legacy gap row (total accumulated from the
   * monthly gaps) is the current gap row (total = target − ledger total).
   */
  lemma LegacyGapMatchesCurrent(target: real, ledger: Totals)
    requires Complete(ledger.byMonth) && ledger.total == MonthSum(ledger.byMonth, Months)
    ensures MonthlyGaps(TargetRow(target), ledger) == GapToGoal(target, TargetRow(target), ledger)
    ensures MonthlyGaps(TargetRow(target), ledger).total == target - ledger.total
  {
    GapTotalIsSumOfMonthlyGaps(DashboardData("", 0.0, target, 0.0), ledger);
  }

  // ---- Unguarded division ----

  /** A JavaScript number that the progress memos can produce. */
  datatype Extended = Finite(v: real) | PosInf | NegInf | NaN

  /** `x / y` in JavaScript: division by 0 gives an infinity of the sign of `x`, or NaN for `0 / 0`. */
  function Divide(x: real, y: real): Extended {
    if y != 0.0 then Finite(x / y)
    else if x > 0.0 then PosInf
    else if x < 0.0 then NegInf
    else NaN
  }

  /** `e * 100`. */
  function Times100(e: Extended): Extended {
    match e
    case Finite(v) => Finite(v * 100.0)
    case PosInf => PosInf
    case NegInf => NegInf
    case NaN => NaN
  }

  /** `Math.max(e, 0)`: NaN stays NaN. */
  function MaxZero(e: Extended): Extended {
    match e
    case Finite(v) => Finite(if v > 0.0 then v else 0.0)
    case PosInf => PosInf
    case NegInf => Finite(0.0)
    case NaN => NaN
  }

  /** `Math.min(e, 100)`: NaN stays NaN. */
  function Min100(e: Extended): Extended {
    match e
    case Finite(v) => Finite(if v < 100.0 then v else 100.0)
    case PosInf => Finite(100.0)
    case NegInf => NegInf
    case NaN => NaN
  }

  /** The sum of every N/E row's `neAmount`, whatever its probability. */
  function NeAmountTotal(rows: seq<NeFromOscRow>): real {
    if rows == [] then 0.0 else NeAmountTotal(rows[..|rows| - 1]) + rows[|rows| - 1].neAmount
  }

  /** Legacy `neTargetProgress`: the sum of every row's `neAmount` over the target, times 100. */
  function LegacyNeTargetProgress(rows: seq<NeFromOscRow>, neTarget: real): Extended {
    Times100(Divide(NeAmountTotal(rows), neTarget))
  }

  /**
   * Without the probability filter and the zero guard: a non-zero target
   * gives 100 times the sum of all amounts over the target, a zero target
   * an infinity or NaN, never a number.
   */
  lemma LegacyNeTargetProgressMeaning(rows: seq<NeFromOscRow>, neTarget: real)
    ensures neTarget != 0.0 ==>
      (LegacyNeTargetProgress(rows, neTarget).Finite? &&
       LegacyNeTargetProgress(rows, neTarget).v * neTarget == 100.0 * NeAmountTotal(rows))
    ensures neTarget == 0.0 ==> !LegacyNeTargetProgress(rows, neTarget).Finite?
  {
    if neTarget != 0.0 {
      PercentOf(NeAmountTotal(rows), neTarget, (NeAmountTotal(rows) / neTarget) * 100.0);
    }
  }

  /** Adding a row adds its `neAmount`, so the total counts every row once. */
  lemma {:induction false} NeAmountTotalConcat(a: seq<NeFromOscRow>, b: seq<NeFromOscRow>)
    ensures NeAmountTotal(a + b) == NeAmountTotal(a) + NeAmountTotal(b)
    decreases |b|
  {
    if b == [] {
      assert a + b == a;
    } else {
      assert (a + b)[..|a + b| - 1] == a + b[..|b| - 1];
      NeAmountTotalConcat(a, b[..|b| - 1]);
    }
  }

  /** Legacy `consumptionProgress`: `Math.min(Math.max(growth / target * 100, 0), 100)`. */
  function LegacyConsumptionProgress(data: LegacyDashboardData, ledgerTotal: real): Extended {
    Min100(MaxZero(Times100(Divide(ledgerTotal - data.consumptionBaseline, data.consumptionGrowthTarget))))
  }

  /**
   * The clamp leaves a number in [0, 100] except in one case: a zero growth
   * target with the ledger exactly at the baseline gives `0 / 0`, and NaN
   * passes through `Math.max` and `Math.min`.
   */
  lemma LegacyProgressCanBeNaN(data: LegacyDashboardData, ledgerTotal: real)
    ensures var p := LegacyConsumptionProgress(data, ledgerTotal);
            (p.NaN? <==> data.consumptionGrowthTarget == 0.0 && ledgerTotal == data.consumptionBaseline) &&
            (!p.NaN? ==> p.Finite? && 0.0 <= p.v <= 100.0)
    ensures data.consumptionGrowthTarget == 0.0 ==>
      LegacyConsumptionProgress(data.(consumptionBaseline := ledgerTotal), ledgerTotal) == NaN
  {
  }

  /**
   * The clamp as intended: the current, guarded progress (0 for a zero
   * growth target) clamped to [0, 100].
   */
  function ClampedConsumptionProgress(data: DashboardData, ledgerTotal: real): (p: real)
    ensures 0.0 <= p <= 100.0
  {
    var raw := ConsumptionProgress(data, ledgerTotal);
    if raw < 0.0 then 0.0 else if raw > 100.0 then 100.0 else raw
  }

  /**
   * Wherever the growth target is non-zero the legacy figure is a number
   * and equals the corrected one.
   */
  lemma ClampedAgreesWhereLegacyIsDefined(data: LegacyDashboardData, ledgerTotal: real)
    requires data.consumptionGrowthTarget != 0.0
    ensures LegacyConsumptionProgress(data, ledgerTotal) ==
      Finite(ClampedConsumptionProgress(
        DashboardData(data.territoryOwnerEmail, data.neTarget, data.consumptionBaseline, data.consumptionGrowthTarget),
        ledgerTotal))
  {
  }
}
