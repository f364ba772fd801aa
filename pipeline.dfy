/**
 * The two pipeline feeds of the current dashboard, N/E from OSC and NB
 * workloads: each owned record becomes one row with every month at 0 and a
 * `total` of 0, carrying the record's amount, close date and probability.
 * The user then types amounts into the months; `handleNeChange` replaces
 * one cell of one row.
 */
module Pipeline {
  import opened Wrappers
  import opened Calendar
  import opened Text
  import opened Values
  import opened Csv
  import opened Rows
  import opened Merge
  import opened Aggregate

  const NeAmountColumn: string := "N/E"
  const WorkloadColumn: string := "Workload"
  const DateColumn: string := "Date"
  const ProbabilityColumn: string := "Probability"

  /** `parseInt(field, 10)`, given what `parseInt` makes of a text; `undefined` reads as NaN. */
  function ParseIntField(parseInt: string -> Option<int>, field: Option<string>): Option<int> {
    match field
    case Some(text) => parseInt(text)
    case None => None
  }

  /** The part the two mappings share: customer, close date, probability, twelve zero months, `total` 0. */
  function FreshRow(record: Record, parseInt: string -> Option<int>): Subscription {
    Subscription(Get(record, CustomerColumn), ZeroMonths(), Real(0.0), None, None,
      Get(record, DateColumn), ParseIntField(parseInt, Get(record, ProbabilityColumn)))
  }

  /** The `updateNeFromOsc` mapping: `neAmount` is `parseFloat(row['N/E']) * 1000`. */
  function NeRow(record: Record, parseFloat: string -> Option<real>, parseInt: string -> Option<int>): Subscription {
    FreshRow(record, parseInt).(neAmount := Some(Scale(ParseField(parseFloat, Get(record, NeAmountColumn)))))
  }

  /** The `updateNbWorkloads` mapping: `wlAmount` is `parseFloat(row['Workload']) * 1000`. */
  function WorkloadRow(record: Record, parseFloat: string -> Option<real>, parseInt: string -> Option<int>): Subscription {
    FreshRow(record, parseInt).(wlAmount := Some(Scale(ParseField(parseFloat, Get(record, WorkloadColumn)))))
  }

  /**
   * `updateNeFromOsc(email)`: unchanged while no CSV text has arrived,
   * otherwise one row per owned record of the parsed file `records`.
   */
  function UpdateNeFromOsc(csvText: string, records: seq<Record>, email: string, prev: seq<Subscription>,
                           parseFloat: string -> Option<real>, parseInt: string -> Option<int>): seq<Subscription>
  {
    if csvText == "" then prev
    else
      var owned := FilterByOwner(records, email);
      seq(|owned|, i requires 0 <= i < |owned| => NeRow(owned[i], parseFloat, parseInt))
  }

  /** `updateNbWorkloads(email)`, the same shape over the workload file. */
  function UpdateNbWorkloads(csvText: string, records: seq<Record>, email: string, prev: seq<Subscription>,
                             parseFloat: string -> Option<real>, parseInt: string -> Option<int>): seq<Subscription>
  {
    if csvText == "" then prev
    else
      var owned := FilterByOwner(records, email);
      seq(|owned|, i requires 0 <= i < |owned| => WorkloadRow(owned[i], parseFloat, parseInt))
  }

  /** A row as the pipeline mappings leave it: every month 0, no stray key, `total` 0. */
  predicate ZeroFilled(row: Subscription) {
    (forall m: Month :: CellAt(row.cells, MonthSlot(m)) == Some(Real(0.0))) &&
    UndefinedKey !in row.cells && row.total == Real(0.0)
  }

  lemma {:induction false} ZeroFilledTotal(row: Subscription, ms: seq<Month>)
    requires ZeroFilled(row)
    ensures MonthsTotal(row.cells, ms) == Real(0.0)
  {
    if ms != [] {
      ZeroFilledTotal(row, ms[..|ms| - 1]);
    }
  }

  lemma {:induction false} ZeroFilledColumn(rows: seq<Subscription>, m: Month)
    requires forall i :: 0 <= i < |rows| ==> ZeroFilled(rows[i])
    ensures ColumnSum(CellsOf(rows), m) == 0.0
  {
    if rows != [] {
      var init := rows[..|rows| - 1];
      ZeroFilledColumn(init, m);
      assert CellsOf(rows)[..|rows| - 1] == CellsOf(init);
    }
  }

  /**
   * After `updateNeFromOsc`, the feed has one row per owned record, in file
   * order, carrying the record's customer, parsed amount, date and
   * probability; every row is zero-filled, so its `total` agrees with
   * `calculateTotal` and the feed's subtotal row is 0 until a cell is edited.
   */
  lemma NeFeedRows(csvText: string, records: seq<Record>, email: string, prev: seq<Subscription>,
                   parseFloat: string -> Option<real>, parseInt: string -> Option<int>)
    requires csvText != ""
    ensures var rows := UpdateNeFromOsc(csvText, records, email, prev, parseFloat, parseInt);
            var owned := FilterByOwner(records, email);
            |rows| == |owned| &&
            (forall i :: 0 <= i < |rows| ==>
              rows[i].customer == Get(owned[i], CustomerColumn) &&
              rows[i].neAmount == Some(Scale(ParseField(parseFloat, Get(owned[i], NeAmountColumn)))) &&
              rows[i].wlAmount == None &&
              rows[i].closeDate == Get(owned[i], DateColumn) &&
              rows[i].probability == ParseIntField(parseInt, Get(owned[i], ProbabilityColumn)) &&
              ZeroFilled(rows[i]) && rows[i].total == CalculateTotal(rows[i].cells)) &&
            SectionTotal(CellsOf(rows)) == Totals(ColumnTotals([]), 0.0)
  {
    var rows := UpdateNeFromOsc(csvText, records, email, prev, parseFloat, parseInt);
    forall i | 0 <= i < |rows| ensures rows[i].total == CalculateTotal(rows[i].cells) {
      ZeroFilledTotal(rows[i], Months);
    }
    ZeroFeedSection(rows);
  }

  /** The same for `updateNbWorkloads`, with `wlAmount` from the `Workload` column. */
  lemma WorkloadFeedRows(csvText: string, records: seq<Record>, email: string, prev: seq<Subscription>,
                         parseFloat: string -> Option<real>, parseInt: string -> Option<int>)
    requires csvText != ""
    ensures var rows := UpdateNbWorkloads(csvText, records, email, prev, parseFloat, parseInt);
            var owned := FilterByOwner(records, email);
            |rows| == |owned| &&
            (forall i :: 0 <= i < |rows| ==>
              rows[i].customer == Get(owned[i], CustomerColumn) &&
              rows[i].wlAmount == Some(Scale(ParseField(parseFloat, Get(owned[i], WorkloadColumn)))) &&
              rows[i].neAmount == None &&
              rows[i].closeDate == Get(owned[i], DateColumn) &&
              rows[i].probability == ParseIntField(parseInt, Get(owned[i], ProbabilityColumn)) &&
              ZeroFilled(rows[i]) && rows[i].total == CalculateTotal(rows[i].cells)) &&
            SectionTotal(CellsOf(rows)) == Totals(ColumnTotals([]), 0.0)
  {
    var rows := UpdateNbWorkloads(csvText, records, email, prev, parseFloat, parseInt);
    forall i | 0 <= i < |rows| ensures rows[i].total == CalculateTotal(rows[i].cells) {
      ZeroFilledTotal(rows[i], Months);
    }
    ZeroFeedSection(rows);
  }

  /** A feed of zero-filled rows has the subtotal row of an empty feed: all zeros. */
  lemma ZeroFeedSection(rows: seq<Subscription>)
    requires forall i :: 0 <= i < |rows| ==> ZeroFilled(rows[i])
    ensures SectionTotal(CellsOf(rows)) == Totals(ColumnTotals([]), 0.0)
  {
    forall m: Month ensures ColumnTotals(CellsOf(rows))[m] == ColumnTotals([])[m] {
      ZeroFilledColumn(rows, m);
    }
    assert ColumnTotals(CellsOf(rows)) == ColumnTotals([]);
    SectionTotalIsSumOfRows([]);
  }

  // ---- Cell edits ----

  /** `parseCurrencyInput`: drop every character but digits, `.` and `-`, parse, and scale by 1000. */
  function ParseCurrencyInput(value: string, parseFloat: string -> Option<real>): Num {
    Scale(parseFloat(KeepNumeric(value)))
  }

  /** Typed text that is already stripped of currency symbols and separators parses the same. */
  lemma ParseCurrencyInputIgnoresSymbols(value: string, parseFloat: string -> Option<real>)
    ensures ParseCurrencyInput(KeepNumeric(value), parseFloat) == ParseCurrencyInput(value, parseFloat)
  {
    KeepNumericIdempotent(value);
  }

  /** The new cells of the edited row: the month cleared to `undefined` for empty text, else the parsed amount. */
  function EditCell(cells: Cells, field: Month, value: string, parseFloat: string -> Option<real>): Cells {
    if value == "" then cells - {MonthSlot(field)} else cells[MonthSlot(field) := ParseCurrencyInput(value, parseFloat)]
  }

  /** `handleNeChange(index, field, value)` for a month `field`: the copied feed with row `index` replaced. */
  function HandleNeChange(rows: seq<Subscription>, index: nat, field: Month, value: string,
                          parseFloat: string -> Option<real>): seq<Subscription>
    requires index < |rows|
  {
    rows[index := rows[index].(cells := EditCell(rows[index].cells, field, value, parseFloat))]
  }

  /**
   * An edit changes one cell and nothing else: the other rows, and the
   * edited row's customer, amounts, date, probability and other months,
   * are as they were; the cell becomes `undefined` for empty text and the
   * parsed amount otherwise.
   */
  lemma EditChangesOneCell(rows: seq<Subscription>, index: nat, field: Month, value: string,
                           parseFloat: string -> Option<real>)
    requires index < |rows|
    ensures var edited := HandleNeChange(rows, index, field, value, parseFloat);
            |edited| == |rows| &&
            (forall j :: 0 <= j < |rows| && j != index ==> edited[j] == rows[j]) &&
            edited[index].(cells := rows[index].cells) == rows[index] &&
            (forall s :: s != MonthSlot(field) ==> CellAt(edited[index].cells, s) == CellAt(rows[index].cells, s)) &&
            CellAt(edited[index].cells, MonthSlot(field)) ==
              (if value == "" then None else Some(ParseCurrencyInput(value, parseFloat)))
  {
  }

  /**
   * An edit moves the feed's subtotal for the edited month by exactly the
   * change in that cell (as `Number(v) || 0`) and leaves the other months'
   * subtotals as they were.
   */
  lemma EditMovesOneSubtotal(rows: seq<Subscription>, index: nat, field: Month, value: string,
                             parseFloat: string -> Option<real>)
    requires index < |rows|
    ensures var edited := HandleNeChange(rows, index, field, value, parseFloat);
            var before := SectionTotal(CellsOf(rows));
            var after := SectionTotal(CellsOf(edited));
            after.byMonth[field] == before.byMonth[field]
              - CellValue(rows[index].cells, field) + CellValue(edited[index].cells, field) &&
            (forall m: Month :: m != field ==> after.byMonth[m] == before.byMonth[m])
  {
    var edited := HandleNeChange(rows, index, field, value, parseFloat);
    assert CellsOf(edited) == CellsOf(rows)[index := edited[index].cells];
    forall m: Month ensures ColumnSum(CellsOf(edited), m) ==
      ColumnSum(CellsOf(rows), m) - CellValue(rows[index].cells, m) + CellValue(edited[index].cells, m)
    {
      ColumnSumUpdate(CellsOf(rows), index, edited[index].cells, m);
    }
  }
}
