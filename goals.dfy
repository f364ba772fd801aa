/**
 * The goal reconciler of the current dashboard: the target curve, the gap
 * to goal, the two progress figures, and the settings handler.
 */
module Goals {
  import opened Wrappers
  import opened Calendar
  import opened Values
  import opened Rows
  import opened Aggregate

  /** The user's settings (`DashboardData`). */
  datatype DashboardData = DashboardData(
    territoryOwnerEmail: string,
    neTarget: real,
    consumptionBaseline: real,
    consumptionGrowthTarget: real)

  /** `totalConsumptionTarget`: the baseline plus the growth target. */
  function TotalConsumptionTarget(data: DashboardData): real {
    data.consumptionBaseline + data.consumptionGrowthTarget
  }

  /** `totalConsumptionTargetRow`: a twelfth of the target in every month, the target as `total`. */
  function TargetRow(target: real): (row: Totals)
    ensures Complete(row.byMonth)
  {
    var byMonth := map m | m in Months :: target / 12.0;
    assert Complete(byMonth) by {
      forall m: Month ensures m in byMonth {
        AllMonthsListed(m);
      }
    }
    Totals(byMonth, target)
  }

  lemma {:induction false} ConstantMonthSum(byMonth: map<Month, real>, c: real, ms: seq<Month>)
    requires Complete(byMonth) && forall i :: 0 <= i < |ms| ==> byMonth[ms[i]] == c
    ensures MonthSum(byMonth, ms) == |ms| as real * c
  {
    if ms != [] {
      ConstantMonthSum(byMonth, c, ms[..|ms| - 1]);
    }
  }

  /**
   * Every month of the target row is `(baseline + growth) / 12`, its
   * `total` is `baseline + growth`, and the months add up to the total.
   */
  lemma TargetRowAddsUp(data: DashboardData)
    ensures var t := TotalConsumptionTarget(data);
            (forall m: Month :: TargetRow(t).byMonth[m] == (data.consumptionBaseline + data.consumptionGrowthTarget) / 12.0) &&
            TargetRow(t).total == data.consumptionBaseline + data.consumptionGrowthTarget &&
            MonthSum(TargetRow(t).byMonth, Months) == TargetRow(t).total
  {
    var t := TotalConsumptionTarget(data);
    MonthsEnumerateYear();
    ConstantMonthSum(TargetRow(t).byMonth, t / 12.0, Months);
  }

  /** The monthly gaps: each month's target minus the ledger's month. */
  function GapMonths(targetRow: Totals, ledger: Totals): (byMonth: map<Month, real>)
    requires Complete(targetRow.byMonth) && Complete(ledger.byMonth)
    ensures Complete(byMonth)
    ensures forall m: Month :: byMonth[m] == targetRow.byMonth[m] - ledger.byMonth[m]
  {
    var byMonth := map m | m in Months :: targetRow.byMonth[m] - ledger.byMonth[m];
    assert Complete(byMonth) by {
      forall m: Month ensures m in byMonth {
        AllMonthsListed(m);
      }
    }
    byMonth
  }

  /** `gapToGoal`: the monthly gaps, with `total` the target minus the ledger's `total`. */
  function GapToGoal(target: real, targetRow: Totals, ledger: Totals): Totals
    requires Complete(targetRow.byMonth) && Complete(ledger.byMonth)
  {
    Totals(GapMonths(targetRow, ledger), target - ledger.total)
  }

  lemma {:induction false} MonthSumDiff(a: map<Month, real>, b: map<Month, real>, d: map<Month, real>, ms: seq<Month>)
    requires Complete(a) && Complete(b) && Complete(d)
    requires forall m: Month :: d[m] == a[m] - b[m]
    ensures MonthSum(d, ms) == MonthSum(a, ms) - MonthSum(b, ms)
  {
    if ms != [] {
      MonthSumDiff(a, b, d, ms[..|ms| - 1]);
    }
  }

  /**
   * For a ledger whose `total` is the sum of its months (as
   * `totalConsumption` builds it), each month's gap is the monthly target
   * minus the ledger's month, and the gap's `total`, computed as target
   * minus ledger total, is the sum of the twelve monthly gaps.
   */
  lemma GapTotalIsSumOfMonthlyGaps(data: DashboardData, ledger: Totals)
    requires Complete(ledger.byMonth) && ledger.total == MonthSum(ledger.byMonth, Months)
    ensures var t := TotalConsumptionTarget(data);
            var gap := GapToGoal(t, TargetRow(t), ledger);
            (forall m: Month :: gap.byMonth[m] == t / 12.0 - ledger.byMonth[m]) &&
            gap.total == MonthSum(gap.byMonth, Months)
  {
    var t := TotalConsumptionTarget(data);
    var gap := GapToGoal(t, TargetRow(t), ledger);
    TargetRowAddsUp(data);
    MonthSumDiff(TargetRow(t).byMonth, ledger.byMonth, gap.byMonth, Months);
  }

  // ---- Progress ----

  /** `row.probability && row.probability >= 90`: a NaN, absent or zero probability does not qualify. */
  predicate HighConfidence(row: Subscription) {
    row.probability.Some? && row.probability.value != 0 && row.probability.value >= 90
  }

  /** The `neFromOsc.reduce` of `neTargetProgress`: `row.neAmount || 0` over the qualifying rows. */
  function HighConfidenceSum(rows: seq<Subscription>): real {
    if rows == [] then 0.0
    else
      var sum := HighConfidenceSum(rows[..|rows| - 1]);
      var row := rows[|rows| - 1];
      if HighConfidence(row) then sum + OrZero(row.neAmount) else sum
  }

  /** The qualifying rows, in order. */
  function HighConfidenceRows(rows: seq<Subscription>): (kept: seq<Subscription>)
    ensures forall i :: 0 <= i < |kept| ==> HighConfidence(kept[i]) && kept[i] in rows
    ensures forall i :: 0 <= i < |rows| && HighConfidence(rows[i]) ==> rows[i] in kept
  {
    if rows == [] then []
    else
      var init := rows[..|rows| - 1];
      var row := rows[|rows| - 1];
      assert forall i :: 0 <= i < |init| ==> init[i] == rows[i];
      HighConfidenceRows(init) + (if HighConfidence(row) then [row] else [])
  }

  /** The filter keeps the rows' order: filtering `a + b` is filtering `a`, then `b`. */
  lemma {:induction false} HighConfidenceRowsConcat(a: seq<Subscription>, b: seq<Subscription>)
    ensures HighConfidenceRows(a + b) == HighConfidenceRows(a) + HighConfidenceRows(b)
  {
    if b == [] {
      assert a + b == a;
    } else {
      HighConfidenceRowsConcat(a, b[..|b| - 1]);
      assert (a + b)[..|a + b| - 1] == a + b[..|b| - 1];
    }
  }

  /** The sum of `row.neAmount || 0` over all the rows. */
  function NeAmountSum(rows: seq<Subscription>): real {
    if rows == [] then 0.0 else NeAmountSum(rows[..|rows| - 1]) + OrZero(rows[|rows| - 1].neAmount)
  }

  lemma {:induction false} NeAmountSumConcat(a: seq<Subscription>, b: seq<Subscription>)
    ensures NeAmountSum(a + b) == NeAmountSum(a) + NeAmountSum(b)
  {
    if b == [] {
      assert a + b == a;
    } else {
      NeAmountSumConcat(a, b[..|b| - 1]);
      assert (a + b)[..|a + b| - 1] == a + b[..|b| - 1];
    }
  }

  /** The filtered fold is the plain sum over the rows with probability at least 90. */
  lemma {:induction false} HighConfidenceSumIsFilteredSum(rows: seq<Subscription>)
    ensures HighConfidenceSum(rows) == NeAmountSum(HighConfidenceRows(rows))
  {
    if rows != [] {
      var init := rows[..|rows| - 1];
      var row := rows[|rows| - 1];
      HighConfidenceSumIsFilteredSum(init);
      NeAmountSumConcat(HighConfidenceRows(init), if HighConfidence(row) then [row] else []);
      assert [row][..0] == [];
    }
  }

  /** `neTargetProgress`: 0 for a zero target, else the qualifying amount as a percentage of the target. */
  function NeTargetProgress(rows: seq<Subscription>, neTarget: real): real {
    if neTarget == 0.0 then 0.0 else (HighConfidenceSum(rows) / neTarget) * 100.0
  }

  /**
   * `neTargetProgress` is 0 for a zero target; otherwise it is 100 times the
   * qualifying amount over the target, and for a positive target it reaches
   * 100 exactly when the qualifying amount reaches the target.
   */
  lemma NeTargetProgressMeaning(rows: seq<Subscription>, neTarget: real)
    ensures neTarget == 0.0 ==> NeTargetProgress(rows, neTarget) == 0.0
    ensures neTarget != 0.0 ==> NeTargetProgress(rows, neTarget) * neTarget == 100.0 * HighConfidenceSum(rows)
    ensures neTarget > 0.0 ==> (NeTargetProgress(rows, neTarget) >= 100.0 <==> HighConfidenceSum(rows) >= neTarget)
  {
    if neTarget != 0.0 {
      PercentOf(HighConfidenceSum(rows), neTarget, NeTargetProgress(rows, neTarget));
    }
  }

  /** A percentage `p = (part / whole) * 100` scaled back by `whole` is `100 * part`; for a positive whole it reaches 100 when part reaches whole. */
  lemma PercentOf(part: real, whole: real, p: real)
    requires whole != 0.0 && p == (part / whole) * 100.0
    ensures p * whole == 100.0 * part
    ensures whole > 0.0 ==> (p >= 100.0 <==> part >= whole)
    ensures whole > 0.0 ==> (p >= 0.0 <==> part >= 0.0)
  {
    var q := part / whole;
    assert q * whole == part;
    assert q * 100.0 * whole == 100.0 * (q * whole);
    if whole > 0.0 {
      RatioAtLeast(part, whole, whole);
      RatioAtLeast(part, whole, 0.0);
    }
  }

  /** For a positive whole, `part / whole` reaches `bound / whole` exactly when part reaches bound. */
  lemma RatioAtLeast(part: real, whole: real, bound: real)
    requires whole > 0.0
    ensures part / whole >= bound / whole <==> part >= bound
  {
    var q, r := part / whole, bound / whole;
    assert q * whole == part;
    assert r * whole == bound;
    if part >= bound {
      assert (q - r) * whole == part - bound;
      assert q >= r;
    } else {
      assert (q - r) * whole == part - bound;
      assert q < r;
    }
  }

  /**
   * A deal of probability 90 counts toward N/E progress with its full amount
   * and one of probability 89 does not count, for every amount and every
   * non-zero target.
   */
  lemma ProbabilityThreshold(row: Subscription, neTarget: real)
    requires neTarget != 0.0
    ensures NeTargetProgress([row.(probability := Some(90))], neTarget) * neTarget == 100.0 * OrZero(row.neAmount)
    ensures NeTargetProgress([row.(probability := Some(89))], neTarget) == 0.0
  {
    var high, low := row.(probability := Some(90)), row.(probability := Some(89));
    assert [high][..0] == [];
    assert [low][..0] == [];
    assert HighConfidence(high) && !HighConfidence(low);
    assert HighConfidenceSum([high]) == OrZero(row.neAmount);
    assert HighConfidenceSum([low]) == 0.0;
    NeTargetProgressMeaning([high], neTarget);
  }

  /** For instance half of a 100000 target from a 90 % deal of 50000 is 50. */
  lemma ProbabilityThresholdExample(row: Subscription)
    requires row.neAmount == Some(Real(50000.0))
    ensures NeTargetProgress([row.(probability := Some(90))], 100000.0) == 50.0
    ensures NeTargetProgress([row.(probability := Some(89))], 100000.0) == 0.0
  {
    ProbabilityThreshold(row, 100000.0);
  }

  /** `consumptionProgress`: 0 for a zero growth target, else the growth over the baseline as a percentage, unclamped. */
  function ConsumptionProgress(data: DashboardData, ledgerTotal: real): real {
    if data.consumptionGrowthTarget == 0.0 then 0.0
    else ((ledgerTotal - data.consumptionBaseline) / data.consumptionGrowthTarget) * 100.0
  }

  /**
   * For a positive growth target, progress reaches 0 exactly at the
   * baseline and 100 exactly at the total target; it is not clamped, so it
   * goes past 100 and below 0.
   */
  lemma ConsumptionProgressMeaning(data: DashboardData, ledgerTotal: real)
    ensures data.consumptionGrowthTarget == 0.0 ==> ConsumptionProgress(data, ledgerTotal) == 0.0
    ensures data.consumptionGrowthTarget != 0.0 ==>
      ConsumptionProgress(data, ledgerTotal) * data.consumptionGrowthTarget ==
        100.0 * (ledgerTotal - data.consumptionBaseline)
    ensures data.consumptionGrowthTarget > 0.0 ==>
      (ConsumptionProgress(data, ledgerTotal) >= 100.0 <==> ledgerTotal >= TotalConsumptionTarget(data)) &&
      (ConsumptionProgress(data, ledgerTotal) >= 0.0 <==> ledgerTotal >= data.consumptionBaseline)
  {
    if data.consumptionGrowthTarget != 0.0 {
      PercentOf(ledgerTotal - data.consumptionBaseline, data.consumptionGrowthTarget, ConsumptionProgress(data, ledgerTotal));
    }
  }

  /** Twice the growth target gives 200, a fall below the baseline a negative figure. */
  lemma ConsumptionProgressUnclamped(data: DashboardData)
    requires data.consumptionGrowthTarget > 0.0
    ensures ConsumptionProgress(data, data.consumptionBaseline + 2.0 * data.consumptionGrowthTarget) == 200.0
    ensures ConsumptionProgress(data, data.consumptionBaseline - data.consumptionGrowthTarget) == -100.0
  {
    var b, g := data.consumptionBaseline, data.consumptionGrowthTarget;
    assert b + 2.0 * g - b == 2.0 * g;
    assert (2.0 * g) / g == 2.0;
    assert b - g - b == -g;
    assert (-g) / g == -1.0;
  }

  // ---- The settings handler ----

  /** A settings edit: `handleDataChange(field, value)`. */
  datatype Edit =
    | SetEmail(email: string)
    | SetNeTarget(neTarget: real)
    | SetBaseline(baseline: real)
    | SetGrowthTarget(growth: real)

  /** `{ ...data, [field]: value }`. */
  function Apply(data: DashboardData, edit: Edit): DashboardData {
    match edit
    case SetEmail(e) => data.(territoryOwnerEmail := e)
    case SetNeTarget(v) => data.(neTarget := v)
    case SetBaseline(v) => data.(consumptionBaseline := v)
    case SetGrowthTarget(v) => data.(consumptionGrowthTarget := v)
  }

  /** What `handleDataChange` does: the new state, and the payload handed to `saveUserData`. */
  datatype Change = Change(state: DashboardData, saved: DashboardData)

  /**
   * `handleDataChange`: the state is updated from the previous state
   * (`prevData`), the saved payload from the settings of the render that
   * created the handler (`rendered`).
   */
  function HandleDataChange(rendered: DashboardData, prev: DashboardData, edit: Edit): Change {
    Change(Apply(prev, edit), Apply(rendered, edit))
  }

  /**
   * One edit changes one setting; the saved payload is the new state when
   * the handler's render shows the previous state, and repeating an edit
   * changes nothing more.
   */
  lemma HandleDataChangeProperties(rendered: DashboardData, prev: DashboardData, edit: Edit)
    ensures var c := HandleDataChange(rendered, prev, edit);
            (rendered == prev ==> c.saved == c.state) &&
            Apply(c.state, edit) == c.state &&
            (edit.SetEmail? ==> c.state.(territoryOwnerEmail := prev.territoryOwnerEmail) == prev) &&
            (edit.SetNeTarget? ==> c.state.(neTarget := prev.neTarget) == prev) &&
            (edit.SetBaseline? ==> c.state.(consumptionBaseline := prev.consumptionBaseline) == prev) &&
            (edit.SetGrowthTarget? ==> c.state.(consumptionGrowthTarget := prev.consumptionGrowthTarget) == prev)
  {
  }

  /**
   * Two edits handled by the same render: the state keeps both, the second
   * payload only the second, since its handler closed over the older settings.
   */
  lemma TwoEditsInOneRender(data: DashboardData)
    requires data.neTarget != 1.0
    ensures var first := HandleDataChange(data, data, SetNeTarget(1.0));
            var second := HandleDataChange(data, first.state, SetBaseline(2.0));
            second.state.neTarget == 1.0 && second.saved.neTarget == data.neTarget
  {
  }
}
