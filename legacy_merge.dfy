/**
 * `updateExistingSubscriptions` of the legacy dashboard. The records are
 * read as in the current dashboard, with three differences: the CSV fields
 * are not trimmed, an absent or empty amount is NaN rather than 0, and a
 * new customer's row starts with all twelve months at 0 and carries no
 * `total`. A later record of the customer only overwrites its month.
 */
module LegacyMerge {
  import opened Wrappers
  import opened Calendar
  import opened Values
  import opened Csv
  import opened Rows
  import opened Sequences
  import opened Merge

  /** A merged legacy row: the customer and its month properties. */
  datatype LegacyRow = LegacyRow(customer: Option<string>, cells: Cells)

  /** `parseFloat(row['Actual Consumption (k$)']) * 1000`, with no special case for an empty field. */
  function LegacyAmount(parseFloat: string -> Option<real>): Option<string> -> Num {
    raw => Scale(ParseField(parseFloat, raw))
  }

  /**
   * `CustomersOf` for legacy rows, which have no `total` and so are a type
   * of their own; `LegacyFindStrip` ties this projection and `LegacyFind`
   * to their current counterparts.
   */
  function LegacyCustomers(rows: seq<LegacyRow>): (cs: seq<Option<string>>)
    ensures |cs| == |rows| && forall i :: 0 <= i < |rows| ==> cs[i] == rows[i].customer
  {
    seq(|rows|, i requires 0 <= i < |rows| => rows[i].customer)
  }

  /** `acc.find(sub => sub.customer === customer)` over legacy rows, as the index of the first match. */
  function LegacyFind(acc: seq<LegacyRow>, customer: Option<string>): (k: Option<nat>)
    ensures k.Some? ==> (k.value < |acc| && acc[k.value].customer == customer &&
      forall j :: 0 <= j < k.value ==> acc[j].customer != customer)
    ensures k.None? <==> customer !in LegacyCustomers(acc)
  {
    if acc == [] then None
    else if acc[0].customer == customer then Some(0)
    else
      match LegacyFind(acc[1..], customer)
      case Some(j) => Some(j + 1)
      case None =>
        assert LegacyCustomers(acc) == [acc[0].customer] + LegacyCustomers(acc[1..]);
        None
  }

  /** The reduce callback: overwrite the customer's month, or push a zero-filled row. */
  function LegacyMergeStep(acc: seq<LegacyRow>, r: Reading): seq<LegacyRow> {
    match LegacyFind(acc, r.customer)
    case Some(k) => acc[k := acc[k].(cells := acc[k].cells[r.slot := r.amount])]
    case None => acc + [LegacyRow(r.customer, ZeroMonths()[r.slot := r.amount])]
  }

  function LegacyMergeReadings(rs: seq<Reading>): seq<LegacyRow> {
    if rs == [] then [] else LegacyMergeStep(LegacyMergeReadings(rs[..|rs| - 1]), rs[|rs| - 1])
  }

  function LegacyMergeRecords(records: seq<Record>, parseFloat: string -> Option<real>): Result<seq<LegacyRow>, MergeError> {
    match ReadAll(records, LegacyAmount(parseFloat))
    case Failure(e) => Failure(e)
    case Success(rs) => Success(LegacyMergeReadings(rs))
  }

  /** The legacy realised feed for `email`; the legacy source has no guard for empty CSV text. */
  function LegacyExistingSubscriptions(csvData: string, email: string, parseFloat: string -> Option<real>)
    : Result<seq<LegacyRow>, MergeError>
  {
    LegacyMergeRecords(FilterByOwner(ParseCsvDataLegacy(csvData), email), parseFloat)
  }

  method UpdateExistingSubscriptionsLegacy(csvData: string, email: string, parseFloat: string -> Option<real>)
    returns (res: Result<seq<LegacyRow>, MergeError>)
    ensures res == LegacyExistingSubscriptions(csvData, email, parseFloat)
  {
    var filtered := FilterByOwner(ParseCsvDataLegacy(csvData), email);
    ghost var amountOf := LegacyAmount(parseFloat);
    ghost var spec := LegacyExistingSubscriptions(csvData, email, parseFloat);
    assert spec == LegacyMergeRecords(filtered, parseFloat);
    var acc: seq<LegacyRow> := [];
    var i := 0;
    while i < |filtered|
      invariant 0 <= i <= |filtered|
      invariant ReadAll(filtered[..i], amountOf).Success?
      invariant acc == LegacyMergeReadings(ReadAll(filtered[..i], amountOf).value)
    {
      var row := filtered[i];
      var customer := Get(row, CustomerColumn);
      var fiscalMonth := Get(row, FiscalMonthColumn);
      if fiscalMonth.None? {
        assert ReadRecord(row, amountOf) == Failure(MissingFiscalMonth(customer));
        ReadAllStopsAtFailure(filtered, i, |filtered|, amountOf);
        assert filtered[..|filtered|] == filtered;
        return Failure(MissingFiscalMonth(customer));
      }
      var slot := SlotOf(fiscalMonth.value);
      var consumption := Scale(ParseField(parseFloat, Get(row, ConsumptionColumn)));
      ghost var reading := Reading(customer, slot, consumption);
      assert amountOf(Get(row, ConsumptionColumn)) == consumption;
      assert ReadRecord(row, amountOf) == Success(reading);
      LegacyReadStep(filtered, i, amountOf, reading);
      ghost var next := LegacyMergeStep(acc, reading);
      var existing := LegacyFind(acc, customer);
      if existing.Some? {
        var k := existing.value;
        acc := acc[k := acc[k].(cells := acc[k].cells[slot := consumption])];
        assert acc == next;
      } else {
        acc := acc + [LegacyRow(customer, ZeroMonths()[slot := consumption])];
        assert acc == next;
      }
      assert acc == next;
      i := i + 1;
      assert ReadAll(filtered[..i], amountOf).Success?;
    }
    assert filtered[..i] == filtered;
    return Success(acc);
  }

  /** One more record that reads adds one step to the legacy merge. */
  lemma LegacyReadStep(records: seq<Record>, i: nat, amountOf: Option<string> -> Num, reading: Reading)
    requires i < |records|
    requires ReadAll(records[..i], amountOf).Success?
    requires ReadRecord(records[i], amountOf) == Success(reading)
    ensures ReadAll(records[..i + 1], amountOf).Success?
    ensures LegacyMergeReadings(ReadAll(records[..i + 1], amountOf).value) ==
      LegacyMergeStep(LegacyMergeReadings(ReadAll(records[..i], amountOf).value), reading)
  {
    ReadAllSnoc(records, i, amountOf);
    var before := ReadAll(records[..i], amountOf).value;
    assert (before + [reading])[..|before|] == before;
  }

  // ---- The legacy merge is the shared merge started from zero-filled rows ----

  /** The legacy rows of merged rows: customer and months, without `total`. */
  function Strip(rows: seq<Subscription>): (stripped: seq<LegacyRow>)
    ensures |stripped| == |rows|
    ensures forall i :: 0 <= i < |rows| ==> stripped[i] == LegacyRow(rows[i].customer, rows[i].cells)
  {
    seq(|rows|, i requires 0 <= i < |rows| => LegacyRow(rows[i].customer, rows[i].cells))
  }

  lemma LegacyFindStrip(acc: seq<Subscription>, customer: Option<string>)
    ensures LegacyFind(Strip(acc), customer) == FindCustomer(acc, customer)
  {
    var a, b := LegacyFind(Strip(acc), customer), FindCustomer(acc, customer);
    assert LegacyCustomers(Strip(acc)) == CustomersOf(acc);
    if a.Some? && b.Some? && a.value < b.value {
      assert false;
    } else if a.Some? && b.Some? && b.value < a.value {
      assert false;
    }
  }

  /**
   * The legacy merge keeps exactly the customers and months of the shared
   * merge started from zero-filled rows; only `total` is dropped.
   */
  lemma {:induction false} LegacyMergeIsZeroFilledMerge(rs: seq<Reading>)
    ensures LegacyMergeReadings(rs) == Strip(MergeAll(rs, ZeroMonths()))
  {
    if rs != [] {
      var init, r := rs[..|rs| - 1], rs[|rs| - 1];
      LegacyMergeIsZeroFilledMerge(init);
      var acc := MergeAll(init, ZeroMonths());
      StripStep(acc, r);
      assert MergeAll(rs, ZeroMonths()) == MergeStep(acc, r, ZeroMonths());
    }
  }

  /** One step of the shared merge from zero-filled rows, stripped, is one legacy step. */
  lemma StripStep(acc: seq<Subscription>, r: Reading)
    ensures Strip(MergeStep(acc, r, ZeroMonths())) == LegacyMergeStep(Strip(acc), r)
  {
    LegacyFindStrip(acc, r.customer);
    match FindCustomer(acc, r.customer)
    case Some(k) =>
      assert Strip(MergeStep(acc, r, ZeroMonths()))[k] == LegacyMergeStep(Strip(acc), r)[k];
    case None =>
      assert Strip(MergeStep(acc, r, ZeroMonths()))[|acc|] == LegacyMergeStep(Strip(acc), r)[|acc|];
  }

  /** Customers are unique after the legacy merge and come in order of first record. */
  lemma LegacyMergedCustomers(rs: seq<Reading>)
    ensures LegacyCustomers(LegacyMergeReadings(rs)) == Dedup(ReadingCustomers(rs))
    ensures Distinct(LegacyCustomers(LegacyMergeReadings(rs)))
  {
    LegacyMergeIsZeroFilledMerge(rs);
    MergedCustomers(rs, ZeroMonths());
    assert LegacyCustomers(LegacyMergeReadings(rs)) == CustomersOf(MergeAll(rs, ZeroMonths()));
  }

  /**
   * Every month of a legacy row holds the customer's last amount for it and
   * 0 when the customer has no record for it; the stray "undefined" key is
   * present only when a record named an unknown month.
   */
  lemma LegacyMergedCells(rs: seq<Reading>)
    ensures forall k, m :: 0 <= k < |LegacyMergeReadings(rs)| ==>
      CellAt(LegacyMergeReadings(rs)[k].cells, MonthSlot(m)) ==
        Some(match LastAmount(rs, LegacyMergeReadings(rs)[k].customer, MonthSlot(m))
             case Some(a) => a
             case None => Real(0.0))
    ensures forall k :: 0 <= k < |LegacyMergeReadings(rs)| ==>
      CellAt(LegacyMergeReadings(rs)[k].cells, UndefinedKey) ==
        LastAmount(rs, LegacyMergeReadings(rs)[k].customer, UndefinedKey)
  {
    LegacyMergeIsZeroFilledMerge(rs);
    MergedRowContents(rs, ZeroMonths());
    var rows := MergeAll(rs, ZeroMonths());
    forall k, m | 0 <= k < |LegacyMergeReadings(rs)|
      ensures CellAt(LegacyMergeReadings(rs)[k].cells, MonthSlot(m)) ==
        Some(match LastAmount(rs, LegacyMergeReadings(rs)[k].customer, MonthSlot(m))
             case Some(a) => a
             case None => Real(0.0))
    {
      assert CellAt(rows[k].cells, MonthSlot(m)) == Expected(rs, rows[k].customer, MonthSlot(m), ZeroMonths());
    }
    forall k | 0 <= k < |LegacyMergeReadings(rs)|
      ensures CellAt(LegacyMergeReadings(rs)[k].cells, UndefinedKey) ==
        LastAmount(rs, LegacyMergeReadings(rs)[k].customer, UndefinedKey)
    {
      assert CellAt(rows[k].cells, UndefinedKey) == Expected(rs, rows[k].customer, UndefinedKey, ZeroMonths());
    }
  }

  /** An empty amount field is NaN in the legacy dashboard, where the current one reads 0. */
  lemma EmptyAmountDiffers(parseFloat: string -> Option<real>)
    requires parseFloat("") == None
    ensures LegacyAmount(parseFloat)(Some("")) == NotANumber
    ensures LegacyAmount(parseFloat)(None) == NotANumber
    ensures CurrentAmount(parseFloat)(Some("")) == Real(0.0)
  {
  }
}
