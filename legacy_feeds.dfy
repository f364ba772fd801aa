/**
 * The legacy dashboard's pipeline rows and ledger. Its N/E and
 * non-booking rows are objects that the cell handlers change in place:
 * `handleNeChange` copies the array but writes into the very row object
 * the old array also holds.
 */
module LegacyFeeds {
  import opened Wrappers
  import opened Calendar
  import opened Text
  import opened Values
  import opened Rows
  import opened Aggregate
  import opened Pipeline
  import opened LegacyMerge

  /** A row of the N/E feed (`NeFromOscRow`): fixed deal data and editable months. */
  class NeFromOscRow {
    const customer: string
    const neAmount: real
    const closeDate: string
    const probability: int
    var cells: Cells

    /** A row as the dashboard's initial state lists it: every month 0. */
    constructor (customer: string, neAmount: real, closeDate: string, probability: int)
      ensures this.customer == customer && this.neAmount == neAmount
      ensures this.closeDate == closeDate && this.probability == probability
      ensures cells == ZeroMonths()
    {
      this.customer := customer;
      this.neAmount := neAmount;
      this.closeDate := closeDate;
      this.probability := probability;
      cells := ZeroMonths();
    }
  }

  /** A row of the non-booking feed (`NonBookingWorkloadRow`): a customer and editable months. */
  class NonBookingWorkloadRow {
    const customer: string
    var cells: Cells

    constructor (customer: string)
      ensures this.customer == customer && cells == ZeroMonths()
    {
      this.customer := customer;
      cells := ZeroMonths();
    }
  }

  /**
   * Legacy `handleNeChange(index, field, value)` for a month `field`: the
   * returned array is a copy holding the same row objects, and the row at
   * `index` has its month set to the parsed text (NaN for empty text; the
   * legacy handler has no empty case). Every other row object keeps its
   * months; one that is the same object as row `index` shows the change.
   */
  method HandleNeChange(rows: seq<NeFromOscRow>, index: nat, field: Month, value: string,
                        parseFloat: string -> Option<real>) returns (copy: seq<NeFromOscRow>)
    requires index < |rows|
    modifies rows[index]
    ensures copy == rows
    ensures rows[index].cells == old(rows[index].cells)[MonthSlot(field) := ParseCurrencyInput(value, parseFloat)]
    ensures forall j :: 0 <= j < |rows| && rows[j] != rows[index] ==> rows[j].cells == old(rows[j].cells)
  {
    copy := rows;
    copy[index].cells := copy[index].cells[MonthSlot(field) := ParseCurrencyInput(value, parseFloat)];
  }

  /** Legacy `handleNonBookingChange`: the same in-place write on the non-booking rows. */
  method HandleNonBookingChange(rows: seq<NonBookingWorkloadRow>, index: nat, field: Month, value: string,
                                parseFloat: string -> Option<real>) returns (copy: seq<NonBookingWorkloadRow>)
    requires index < |rows|
    modifies rows[index]
    ensures copy == rows
    ensures rows[index].cells == old(rows[index].cells)[MonthSlot(field) := ParseCurrencyInput(value, parseFloat)]
    ensures forall j :: 0 <= j < |rows| && rows[j] != rows[index] ==> rows[j].cells == old(rows[j].cells)
  {
    copy := rows;
    copy[index].cells := copy[index].cells[MonthSlot(field) := ParseCurrencyInput(value, parseFloat)];
  }

  /** Empty text is NaN in a legacy cell, where the current handler makes the cell `undefined`. */
  lemma EmptyEditIsNaN(cells: Cells, field: Month, parseFloat: string -> Option<real>)
    requires parseFloat("") == None
    ensures CellAt(cells[MonthSlot(field) := ParseCurrencyInput("", parseFloat)], MonthSlot(field)) == Some(NotANumber)
    ensures CellAt(EditCell(cells, field, "", parseFloat), MonthSlot(field)) == None
  {
    assert KeepNumeric("") == "";
  }

  /**
   * The month cells of each row, in order, for each of the three legacy row
   * types (merged rows, N/E objects, non-booking objects); the two object
   * types are classes, so their projections read the heap.
   */
  function LegacyCells(rows: seq<LegacyRow>): (column: seq<Cells>)
    ensures |column| == |rows| && forall i :: 0 <= i < |rows| ==> column[i] == rows[i].cells
  {
    seq(|rows|, i requires 0 <= i < |rows| => rows[i].cells)
  }

  function NeCells(rows: seq<NeFromOscRow>): (column: seq<Cells>)
    reads rows
    ensures |column| == |rows| && forall i :: 0 <= i < |rows| ==> column[i] == rows[i].cells
  {
    seq(|rows|, i reads rows requires 0 <= i < |rows| => rows[i].cells)
  }

  function NonBookingCells(rows: seq<NonBookingWorkloadRow>): (column: seq<Cells>)
    reads rows
    ensures |column| == |rows| && forall i :: 0 <= i < |rows| ==> column[i] == rows[i].cells
  {
    seq(|rows|, i reads rows requires 0 <= i < |rows| => rows[i].cells)
  }

  /**
   * Legacy `totalConsumption`: one pass over the months, each month summing
   * `Number(row[month]) || 0` over all three row collections. It is the
   * current ledger of the three sections' subtotal rows.
   */
  method LegacyTotalConsumption(existing: seq<LegacyRow>, ne: seq<NeFromOscRow>, nb: seq<NonBookingWorkloadRow>)
    returns (result: Totals)
    ensures result == Ledger(SectionTotal(LegacyCells(existing)), SectionTotal(NeCells(ne)), SectionTotal(NonBookingCells(nb)))
  {
    result := SumColumnsByMonth(LegacyCells(existing), NeCells(ne), NonBookingCells(nb));
  }

  /** The month-by-month pass of legacy `totalConsumption` over the three collections' cells. */
  method SumColumnsByMonth(x: seq<Cells>, y: seq<Cells>, z: seq<Cells>) returns (result: Totals)
    ensures result == Ledger(SectionTotal(x), SectionTotal(y), SectionTotal(z))
  {
    var byMonth: map<Month, real> := map[];
    var total := 0.0;
    ghost var target := LedgerMonths(SectionTotal(x), SectionTotal(y), SectionTotal(z));
    for i := 0 to |Months|
      invariant byMonth == Filled(target, Months[..i])
      invariant total == MonthSum(target, Months[..i])
    {
      var month := Months[i];
      var monthTotal := ColumnSum(x, month) + ColumnSum(y, month) + ColumnSum(z, month);
      LedgerMonthOfColumns(x, y, z, month);
      assert monthTotal == target[month];
      FilledStep(target, i);
      byMonth := byMonth[month := monthTotal];
      total := total + monthTotal;
    }
    assert Months[..|Months|] == Months;
    FilledAllMonths(target);
    return Totals(byMonth, total);
  }

  /**
   * The legacy ledger is the subtotal row of all rows of the three
   * collections together, and its `total` the sum of its months.
   */
  lemma LegacyLedgerIsOneSection(existing: seq<LegacyRow>, ne: seq<NeFromOscRow>, nb: seq<NonBookingWorkloadRow>)
    ensures var ledger := Ledger(SectionTotal(LegacyCells(existing)), SectionTotal(NeCells(ne)), SectionTotal(NonBookingCells(nb)));
            ledger == SectionTotal(LegacyCells(existing) + NeCells(ne) + NonBookingCells(nb)) &&
            ledger.total == MonthSum(ledger.byMonth, Months)
  {
    LedgerOfSections(LegacyCells(existing), NeCells(ne), NonBookingCells(nb));
  }
}
