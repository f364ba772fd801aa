/**
 * The aggregator: per-section subtotal rows (`calculateSectionTotal`) and
 * the three-feed ledger (`totalConsumption`). Sections read each month of
 * each row as `Number(row[month]) || 0`, so undefined and NaN cells count
 * as 0 and every subtotal is a finite number.
 */
module Aggregate {
  import opened Wrappers
  import opened Calendar
  import opened Values
  import opened Rows

  /** A summary row: one number per month and a `total`. */
  datatype Totals = Totals(byMonth: map<Month, real>, total: real)

  /** `Number(row[month]) || 0`. */
  function CellValue(cells: Cells, m: Month): real {
    OrZero(CellAt(cells, MonthSlot(m)))
  }

  /** `data.reduce((sum, row) => sum + (Number(row[month]) || 0), 0)` over the rows' cells. */
  function ColumnSum(column: seq<Cells>, m: Month): real {
    if column == [] then 0.0
    else ColumnSum(column[..|column| - 1], m) + CellValue(column[|column| - 1], m)
  }

  /** The month cells of each row of a section, in order: what a subtotal reads. */
  function CellsOf(rows: seq<Subscription>): (column: seq<Cells>)
    ensures |column| == |rows| && forall i :: 0 <= i < |rows| ==> column[i] == rows[i].cells
  {
    seq(|rows|, i requires 0 <= i < |rows| => rows[i].cells)
  }

  predicate Complete(byMonth: map<Month, real>) {
    forall m: Month :: m in byMonth
  }

  /** The sum of the entries of `byMonth` for the months `ms`. */
  function MonthSum(byMonth: map<Month, real>, ms: seq<Month>): real
    requires Complete(byMonth)
  {
    if ms == [] then 0.0 else MonthSum(byMonth, ms[..|ms| - 1]) + byMonth[ms[|ms| - 1]]
  }

  /** The entries of `target` for the months `ms`: what a loop over `ms` has filled in so far. */
  function Filled(target: map<Month, real>, ms: seq<Month>): map<Month, real>
    requires Complete(target)
  {
    if ms == [] then map[] else Filled(target, ms[..|ms| - 1])[ms[|ms| - 1] := target[ms[|ms| - 1]]]
  }

  lemma {:induction false} FilledEntries(target: map<Month, real>, ms: seq<Month>)
    requires Complete(target)
    ensures forall m :: m in Filled(target, ms) <==> m in ms
    ensures forall m :: m in Filled(target, ms) ==> Filled(target, ms)[m] == target[m]
  {
    if ms != [] {
      FilledEntries(target, ms[..|ms| - 1]);
      assert ms == ms[..|ms| - 1] + [ms[|ms| - 1]];
    }
  }

  /** One more month of a loop over `Months`: its entry is filled in and added to the sum. */
  lemma FilledStep(target: map<Month, real>, i: nat)
    requires Complete(target) && i < |Months|
    ensures Filled(target, Months[..i + 1]) == Filled(target, Months[..i])[Months[i] := target[Months[i]]]
    ensures MonthSum(target, Months[..i + 1]) == MonthSum(target, Months[..i]) + target[Months[i]]
  {
    assert Months[..i + 1][..i] == Months[..i];
  }

  /** Filling every month of `Months` from a complete map gives that map. */
  lemma FilledAllMonths(target: map<Month, real>)
    requires Complete(target)
    ensures Filled(target, Months) == target
  {
    FilledEntries(target, Months);
    forall m: Month ensures m in Filled(target, Months) {
      AllMonthsListed(m);
    }
  }

  /** The twelve column sums of a section. */
  function ColumnTotals(column: seq<Cells>): (byMonth: map<Month, real>)
    ensures Complete(byMonth)
    ensures forall m: Month :: byMonth[m] == ColumnSum(column, m)
  {
    var byMonth := map m | m in Months :: ColumnSum(column, m);
    assert Complete(byMonth) by {
      forall m: Month ensures m in byMonth {
        AllMonthsListed(m);
      }
    }
    byMonth
  }

  /** The subtotal row of a section: the column sums and the sum of those. */
  function SectionTotal(column: seq<Cells>): Totals {
    Totals(ColumnTotals(column), MonthSum(ColumnTotals(column), Months))
  }

  /**
   * `calculateSectionTotal`: for each month in order, fill the month's
   * column sum and add it to `total`.
   */
  method CalculateSectionTotal(rows: seq<Subscription>) returns (result: Totals)
    ensures result == SectionTotal(CellsOf(rows))
  {
    var byMonth: map<Month, real> := map[];
    var total := 0.0;
    var column := CellsOf(rows);
    ghost var target := ColumnTotals(column);
    for i := 0 to |Months|
      invariant byMonth == Filled(target, Months[..i])
      invariant total == MonthSum(target, Months[..i])
    {
      var month := Months[i];
      var monthTotal := ColumnSum(column, month);
      assert monthTotal == target[month];
      FilledStep(target, i);
      byMonth := byMonth[month := monthTotal];
      total := total + monthTotal;
    }
    assert Months[..|Months|] == Months;
    FilledAllMonths(target);
    return Totals(byMonth, total);
  }

  /** The ledger's months: the three sections added month by month. */
  function LedgerMonths(a: Totals, b: Totals, c: Totals): (byMonth: map<Month, real>)
    requires Complete(a.byMonth) && Complete(b.byMonth) && Complete(c.byMonth)
    ensures Complete(byMonth)
    ensures forall m: Month :: byMonth[m] == a.byMonth[m] + b.byMonth[m] + c.byMonth[m]
  {
    var byMonth := map m | m in Months :: a.byMonth[m] + b.byMonth[m] + c.byMonth[m];
    assert Complete(byMonth) by {
      forall m: Month ensures m in byMonth {
        AllMonthsListed(m);
      }
    }
    byMonth
  }

  /** A month of the ledger of three subtotal rows is the sum of the three columns for it. */
  lemma LedgerMonthOfColumns(x: seq<Cells>, y: seq<Cells>, z: seq<Cells>, m: Month)
    ensures LedgerMonths(SectionTotal(x), SectionTotal(y), SectionTotal(z))[m] ==
      ColumnSum(x, m) + ColumnSum(y, m) + ColumnSum(z, m)
  {
  }

  /** `totalConsumption`: the months of the three sections added, and the sum of those. */
  function Ledger(a: Totals, b: Totals, c: Totals): Totals
    requires Complete(a.byMonth) && Complete(b.byMonth) && Complete(c.byMonth)
  {
    Totals(LedgerMonths(a, b, c), MonthSum(LedgerMonths(a, b, c), Months))
  }

  /**
   * `totalConsumption`, as the source runs it: for each month in order,
   * add the three sections' entries and add the result to `total`.
   */
  method TotalConsumption(tenancies: Totals, ne: Totals, nb: Totals) returns (result: Totals)
    requires Complete(tenancies.byMonth) && Complete(ne.byMonth) && Complete(nb.byMonth)
    ensures result == Ledger(tenancies, ne, nb)
  {
    var byMonth: map<Month, real> := map[];
    var total := 0.0;
    ghost var target := LedgerMonths(tenancies, ne, nb);
    for i := 0 to |Months|
      invariant byMonth == Filled(target, Months[..i])
      invariant total == MonthSum(target, Months[..i])
    {
      var month := Months[i];
      var monthTotal := tenancies.byMonth[month] + ne.byMonth[month] + nb.byMonth[month];
      assert monthTotal == target[month];
      FilledStep(target, i);
      byMonth := byMonth[month := monthTotal];
      total := total + monthTotal;
    }
    assert Months[..|Months|] == Months;
    FilledAllMonths(target);
    return Totals(byMonth, total);
  }

  // ---- Properties of the subtotal rows and the ledger ----

  lemma {:induction false} ColumnSumConcat(x: seq<Cells>, y: seq<Cells>, m: Month)
    ensures ColumnSum(x + y, m) == ColumnSum(x, m) + ColumnSum(y, m)
  {
    if y == [] {
      assert x + y == x;
    } else {
      ColumnSumConcat(x, y[..|y| - 1], m);
      assert (x + y)[..|x + y| - 1] == x + y[..|y| - 1];
    }
  }

  lemma {:induction false} MonthSumAdd(a: map<Month, real>, b: map<Month, real>, c: map<Month, real>,
                                       sum: map<Month, real>, ms: seq<Month>)
    requires Complete(a) && Complete(b) && Complete(c) && Complete(sum)
    requires forall m: Month :: sum[m] == a[m] + b[m] + c[m]
    ensures MonthSum(sum, ms) == MonthSum(a, ms) + MonthSum(b, ms) + MonthSum(c, ms)
  {
    if ms != [] {
      MonthSumAdd(a, b, c, sum, ms[..|ms| - 1]);
    }
  }

  /** The sum over the rows of each row's `Number(row[m]) || 0` for the months `ms`. */
  function RowsSum(column: seq<Cells>, ms: seq<Month>): real {
    if column == [] then 0.0 else RowsSum(column[..|column| - 1], ms) + MonthsOrZero(column[|column| - 1], ms)
  }

  lemma {:induction false} MonthSumOfColumns(column: seq<Cells>, ms: seq<Month>)
    ensures MonthSum(ColumnTotals(column), ms) == RowsSum(column, ms)
  {
    if ms == [] {
      RowsSumNoMonths(column);
    } else {
      var init := ms[..|ms| - 1];
      var m := ms[|ms| - 1];
      assert ms == init + [m];
      MonthSumOfColumns(column, init);
      RowsSumSnocMonth(column, init, m);
    }
  }

  lemma {:induction false} RowsSumNoMonths(column: seq<Cells>)
    ensures RowsSum(column, []) == 0.0
  {
    if column != [] {
      RowsSumNoMonths(column[..|column| - 1]);
    }
  }

  lemma {:induction false} RowsSumSnocMonth(column: seq<Cells>, ms: seq<Month>, m: Month)
    ensures RowsSum(column, ms + [m]) == RowsSum(column, ms) + ColumnSum(column, m)
  {
    assert (ms + [m])[..|ms|] == ms;
    if column != [] {
      RowsSumSnocMonth(column[..|column| - 1], ms, m);
    }
  }

  /**
   * A subtotal row's `total` adds up every row's months (`Number(row[m]) || 0`):
   * summing month by month and row by row give the same number.
   */
  lemma SectionTotalIsSumOfRows(column: seq<Cells>)
    ensures SectionTotal(column).total == RowsSum(column, Months)
    ensures forall m: Month :: SectionTotal(column).byMonth[m] == ColumnSum(column, m)
  {
    MonthSumOfColumns(column, Months);
  }

  /** The sum of the rows' `calculateTotal`, for rows with no NaN month. */
  function RowTotalsSum(column: seq<Cells>): real
    requires forall i :: 0 <= i < |column| ==> CalculateTotal(column[i]).Real?
  {
    if column == [] then 0.0 else RowTotalsSum(column[..|column| - 1]) + CalculateTotal(column[|column| - 1]).r
  }

  /**
   * When no month of any row is NaN, a subtotal row's `total` is the sum of
   * the row totals shown in the last column.
   */
  lemma {:induction false} SectionTotalIsSumOfRowTotals(column: seq<Cells>)
    requires forall i :: 0 <= i < |column| ==> !HasNaN(column[i], Months)
    ensures forall i :: 0 <= i < |column| ==> CalculateTotal(column[i]).Real?
    ensures SectionTotal(column).total == RowTotalsSum(column)
  {
    SectionTotalIsSumOfRows(column);
    RowTotalsAreRowSums(column);
  }

  lemma {:induction false} RowTotalsAreRowSums(column: seq<Cells>)
    requires forall i :: 0 <= i < |column| ==> !HasNaN(column[i], Months)
    ensures forall i :: 0 <= i < |column| ==> CalculateTotal(column[i]).Real?
    ensures RowTotalsSum(column) == RowsSum(column, Months)
  {
    forall i | 0 <= i < |column| ensures CalculateTotal(column[i]) == Real(MonthsOrZero(column[i], Months)) {
      CalculateTotalMeaning(column[i]);
    }
    if column != [] {
      RowTotalsAreRowSums(column[..|column| - 1]);
    }
  }

  /**
   * The ledger of three sections is the subtotal row of all their rows
   * together; its `total` is the sum of the three subtotals.
   */
  lemma LedgerOfSections(x: seq<Cells>, y: seq<Cells>, z: seq<Cells>)
    ensures Ledger(SectionTotal(x), SectionTotal(y), SectionTotal(z)) == SectionTotal(x + y + z)
    ensures Ledger(SectionTotal(x), SectionTotal(y), SectionTotal(z)).total ==
      SectionTotal(x).total + SectionTotal(y).total + SectionTotal(z).total
  {
    var a, b, c := SectionTotal(x), SectionTotal(y), SectionTotal(z);
    forall m: Month ensures LedgerMonths(a, b, c)[m] == ColumnTotals(x + y + z)[m] {
      ColumnSumConcat(x + y, z, m);
      ColumnSumConcat(x, y, m);
    }
    assert LedgerMonths(a, b, c) == ColumnTotals(x + y + z);
    MonthSumAdd(a.byMonth, b.byMonth, c.byMonth, LedgerMonths(a, b, c), Months);
  }

  /** The ledger's `total` is the sum of its twelve months, whatever the sections hold. */
  lemma LedgerTotalIsMonthSum(a: Totals, b: Totals, c: Totals)
    requires Complete(a.byMonth) && Complete(b.byMonth) && Complete(c.byMonth)
    ensures Complete(Ledger(a, b, c).byMonth)
    ensures forall m: Month :: Ledger(a, b, c).byMonth[m] == a.byMonth[m] + b.byMonth[m] + c.byMonth[m]
    ensures Ledger(a, b, c).total == MonthSum(Ledger(a, b, c).byMonth, Months)
  {
  }

  /** Replacing one row's cells moves a column sum by exactly the change in that row's cell. */
  lemma {:induction false} ColumnSumUpdate(column: seq<Cells>, index: nat, cells: Cells, m: Month)
    requires index < |column|
    ensures ColumnSum(column[index := cells], m) ==
      ColumnSum(column, m) - CellValue(column[index], m) + CellValue(cells, m)
  {
    var init := column[..|column| - 1];
    var updated := column[index := cells];
    if index == |column| - 1 {
      assert updated[..|updated| - 1] == init;
    } else {
      ColumnSumUpdate(init, index, cells, m);
      assert updated[..|updated| - 1] == init[index := cells];
    }
  }
}
