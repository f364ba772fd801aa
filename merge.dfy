/**
 * `updateExistingSubscriptions` of the current dashboard: the realised
 * consumption feed. Records are kept when their `Territory Owner E-mail`
 * is the requested e-mail; each record names a customer, a fiscal month
 * (`FY25-JUN`: the month is what follows the first five characters, read
 * through `monthMap`) and an amount in thousands. Records of one customer
 * are merged into a single row, in order of the customer's first record;
 * a later record overwrites its month and adds to the row's `total`.
 *
 * The merge is written once, parameterised by the cells a new row starts
 * from: the current dashboard starts from all months `undefined`, the
 * legacy one (module LegacyMerge) from all months 0.
 */
module Merge {
  import opened Wrappers
  import opened Calendar
  import opened Text
  import opened Values
  import opened Csv
  import opened Rows
  import opened Sequences

  const EmailColumn: string := "Territory Owner E-mail"
  const CustomerColumn: string := "Customer Name"
  const FiscalMonthColumn: string := "Fiscal Month"
  const ConsumptionColumn: string := "Actual Consumption (k$)"

  predicate OwnedBy(record: Record, email: string) {
    Get(record, EmailColumn) == Some(email)
  }

  /** `records.filter(row => row['Territory Owner E-mail'] === email)`. */
  function FilterByOwner(records: seq<Record>, email: string): (kept: seq<Record>)
    ensures forall i :: 0 <= i < |kept| ==> OwnedBy(kept[i], email) && kept[i] in records
    ensures forall i :: 0 <= i < |records| && OwnedBy(records[i], email) ==> records[i] in kept
  {
    if records == [] then []
    else
      var init := records[..|records| - 1];
      var last := records[|records| - 1];
      assert forall i :: 0 <= i < |init| ==> init[i] == records[i];
      FilterByOwner(init, email) + (if OwnedBy(last, email) then [last] else [])
  }

  /** Filtering distributes over concatenation, so records are kept or dropped one by one. */
  lemma {:induction false} FilterConcat(a: seq<Record>, b: seq<Record>, email: string)
    ensures FilterByOwner(a + b, email) == FilterByOwner(a, email) + FilterByOwner(b, email)
  {
    if b == [] {
      assert a + b == a;
    } else {
      var init := b[..|b| - 1];
      FilterConcat(a, init, email);
      assert (a + b)[..|a + b| - 1] == a + init;
    }
  }

  /** What one record contributes: its customer, the slot its month names, and its amount. */
  datatype Reading = Reading(customer: Option<string>, slot: Slot, amount: Num)

  /** `row['Fiscal Month'].slice(5)` throws a TypeError when the field is `undefined`. */
  datatype MergeError = MissingFiscalMonth(customer: Option<string>)

  /**
   * The slot `existingCustomer[month]` writes: the month whose abbreviation
   * follows the first five characters, or the stray "undefined" key when
   * the abbreviation is not in `monthMap`.
   */
  function SlotOf(fiscalMonth: string): (slot: Slot)
    ensures slot.MonthSlot? <==> Drop(fiscalMonth, 5) in MonthMap
    ensures slot.MonthSlot? ==> Abbrev(slot.month) == Drop(fiscalMonth, 5)
  {
    match MonthOfAbbrev(Drop(fiscalMonth, 5))
    case Some(m) => MonthSlot(m)
    case None => UndefinedKey
  }

  /**
   * `rawConsumption ? parseFloat(rawConsumption) * 1000 : 0`: an absent or
   * empty field is 0, any other field is parsed and scaled.
   */
  function Consumption(raw: Option<string>, parseFloat: string -> Option<real>): (amount: Num)
    ensures raw == None || raw == Some("") ==> amount == Real(0.0)
    ensures raw.Some? && raw != Some("") ==> amount == Scale(parseFloat(raw.value))
  {
    if raw.None? || raw.value == "" then Real(0.0) else Scale(parseFloat(raw.value))
  }

  /** How the current dashboard reads an amount field. */
  function CurrentAmount(parseFloat: string -> Option<real>): Option<string> -> Num {
    raw => Consumption(raw, parseFloat)
  }

  /** One record of the reduce, the amount field read by `amountOf`. */
  function ReadRecord(record: Record, amountOf: Option<string> -> Num): Result<Reading, MergeError> {
    var customer := Get(record, CustomerColumn);
    match Get(record, FiscalMonthColumn)
    case None => Failure(MissingFiscalMonth(customer))
    case Some(fiscalMonth) =>
      Success(Reading(customer, SlotOf(fiscalMonth), amountOf(Get(record, ConsumptionColumn))))
  }

  /** The readings of all records, or the error of the first record that throws. */
  function ReadAll(records: seq<Record>, amountOf: Option<string> -> Num): (r: Result<seq<Reading>, MergeError>)
    ensures r.Success? ==> (|r.value| == |records| &&
      forall i :: 0 <= i < |records| ==> ReadRecord(records[i], amountOf) == Success(r.value[i]))
  {
    if records == [] then Success([])
    else
      var init := records[..|records| - 1];
      assert forall i :: 0 <= i < |init| ==> init[i] == records[i];
      match ReadAll(init, amountOf)
      case Failure(e) => Failure(e)
      case Success(rs) =>
        match ReadRecord(records[|records| - 1], amountOf)
        case Failure(e) => Failure(e)
        case Success(r) => Success(rs + [r])
  }

  /** Once a record throws, the whole merge throws with its error. */
  lemma {:induction false} ReadAllStopsAtFailure(records: seq<Record>, i: nat, n: nat, amountOf: Option<string> -> Num)
    requires i < n <= |records|
    requires ReadAll(records[..i], amountOf).Success?
    requires ReadRecord(records[i], amountOf).Failure?
    ensures ReadAll(records[..n], amountOf) == Failure(ReadRecord(records[i], amountOf).error)
  {
    var prefix := records[..n];
    assert prefix[..|prefix| - 1] == records[..n - 1];
    assert prefix[|prefix| - 1] == records[n - 1];
    if n > i + 1 {
      ReadAllStopsAtFailure(records, i, n - 1, amountOf);
    }
  }

  /** The merge throws exactly when some record has no `Fiscal Month`. */
  lemma {:induction false} ReadAllFails(records: seq<Record>, amountOf: Option<string> -> Num)
    ensures ReadAll(records, amountOf).Failure? <==>
      exists i :: 0 <= i < |records| && Get(records[i], FiscalMonthColumn).None?
  {
    if records != [] {
      var init := records[..|records| - 1];
      ReadAllFails(init, amountOf);
      assert forall i :: 0 <= i < |init| ==> init[i] == records[i];
    }
  }

  /** A record that reads extends the readings of the records before it. */
  lemma ReadAllSnoc(records: seq<Record>, i: nat, amountOf: Option<string> -> Num)
    requires i < |records|
    requires ReadAll(records[..i], amountOf).Success?
    requires ReadRecord(records[i], amountOf).Success?
    ensures ReadAll(records[..i + 1], amountOf) ==
      Success(ReadAll(records[..i], amountOf).value + [ReadRecord(records[i], amountOf).value])
  {
    assert records[..i + 1][..i] == records[..i];
  }

  /** The `customer` of each merged row, in order (the list `find` searches). */
  function CustomersOf(rows: seq<Subscription>): (cs: seq<Option<string>>)
    ensures |cs| == |rows| && forall i :: 0 <= i < |rows| ==> cs[i] == rows[i].customer
  {
    seq(|rows|, i requires 0 <= i < |rows| => rows[i].customer)
  }

  /** The customer of each reading, in order; the readings' counterpart of `CustomersOf`. */
  function ReadingCustomers(rs: seq<Reading>): (cs: seq<Option<string>>)
    ensures |cs| == |rs| && forall i :: 0 <= i < |rs| ==> cs[i] == rs[i].customer
  {
    seq(|rs|, i requires 0 <= i < |rs| => rs[i].customer)
  }

  /** `acc.find(sub => sub.customer === customer)`, as the index of the first match. */
  function FindCustomer(acc: seq<Subscription>, customer: Option<string>): (k: Option<nat>)
    ensures k.Some? ==> (k.value < |acc| && acc[k.value].customer == customer &&
      forall j :: 0 <= j < k.value ==> acc[j].customer != customer)
    ensures k.None? <==> customer !in CustomersOf(acc)
  {
    if acc == [] then None
    else if acc[0].customer == customer then Some(0)
    else
      match FindCustomer(acc[1..], customer)
      case Some(j) => Some(j + 1)
      case None =>
        assert CustomersOf(acc) == [acc[0].customer] + CustomersOf(acc[1..]);
        None
  }

  /** The reduce callback for one reading, new rows starting from the cells `base`. */
  function MergeStep(acc: seq<Subscription>, r: Reading, base: Cells): seq<Subscription> {
    match FindCustomer(acc, r.customer)
    case Some(k) =>
      acc[k := acc[k].(cells := acc[k].cells[r.slot := r.amount], total := Add(acc[k].total, r.amount))]
    case None =>
      acc + [Subscription(r.customer, base[r.slot := r.amount], r.amount, None, None, None, None)]
  }

  /** The whole reduce, from the empty accumulator. */
  function MergeAll(rs: seq<Reading>, base: Cells): seq<Subscription> {
    if rs == [] then [] else MergeStep(MergeAll(rs[..|rs| - 1], base), rs[|rs| - 1], base)
  }

  /** The current merge: a new customer's row has every month `undefined` but its own. */
  function MergeReadings(rs: seq<Reading>): seq<Subscription> {
    MergeAll(rs, map[])
  }

  function MergeRecords(records: seq<Record>, parseFloat: string -> Option<real>): Result<seq<Subscription>, MergeError> {
    match ReadAll(records, CurrentAmount(parseFloat))
    case Failure(e) => Failure(e)
    case Success(rs) => Success(MergeReadings(rs))
  }

  /**
   * The realised feed after `updateExistingSubscriptions(email)`: unchanged
   * while no CSV text has arrived, otherwise the merge of the owner's records.
   */
  function ExistingSubscriptions(csvData: string, email: string, prev: seq<Subscription>,
                                 parseFloat: string -> Option<real>): Result<seq<Subscription>, MergeError> {
    if csvData == "" then Success(prev)
    else MergeRecords(FilterByOwner(ParseCsvData(csvData), email), parseFloat)
  }

  /**
   * `updateExistingSubscriptions`, step by step as the source runs it: one
   * pass over the owner's records that finds the customer's row, then
   * either overwrites the month and adds to `total` or pushes a new row.
   */
  method UpdateExistingSubscriptions(csvData: string, email: string, prev: seq<Subscription>,
                                     parseFloat: string -> Option<real>)
    returns (res: Result<seq<Subscription>, MergeError>)
    ensures res == ExistingSubscriptions(csvData, email, prev, parseFloat)
  {
    if csvData == "" {
      return Success(prev);
    }
    var filtered := FilterByOwner(ParseCsvData(csvData), email);
    ghost var amountOf := CurrentAmount(parseFloat);
    assert ExistingSubscriptions(csvData, email, prev, parseFloat) == MergeRecords(filtered, parseFloat);
    var acc: seq<Subscription> := [];
    var i := 0;
    assert filtered[..i] == [];
    assert ReadAll(filtered[..i], amountOf).Success?;
    while i < |filtered|
      invariant 0 <= i <= |filtered|
      invariant ReadAll(filtered[..i], amountOf).Success?
      invariant acc == MergeReadings(ReadAll(filtered[..i], amountOf).value)
    {
      var row := filtered[i];
      var customer := Get(row, CustomerColumn);
      var fiscalMonth := Get(row, FiscalMonthColumn);
      if fiscalMonth.None? {
        assert ReadRecord(row, amountOf) == Failure(MissingFiscalMonth(customer));
        ReadAllStopsAtFailure(filtered, i, |filtered|, amountOf);
        assert filtered[..|filtered|] == filtered;
        return Failure(MissingFiscalMonth(customer));
      }
      var slot := SlotOf(fiscalMonth.value);
      var consumption := Consumption(Get(row, ConsumptionColumn), parseFloat);
      ghost var reading := Reading(customer, slot, consumption);
      assert amountOf(Get(row, ConsumptionColumn)) == consumption;
      assert ReadRecord(row, amountOf) == Success(reading);
      MergeReadStep(filtered, i, amountOf, reading);
      ghost var next := MergeStep(acc, reading, map[]);
      var existing := FindCustomer(acc, customer);
      if existing.Some? {
        var k := existing.value;
        acc := acc[k := acc[k].(cells := acc[k].cells[slot := consumption], total := Add(acc[k].total, consumption))];
        assert acc == next;
      } else {
        acc := acc + [Subscription(customer, map[slot := consumption], consumption, None, None, None, None)];
        assert acc == next;
      }
      i := i + 1;
      assert ReadAll(filtered[..i], amountOf).Success?;
    }
    assert filtered[..i] == filtered;
    return Success(acc);
  }

  /** One more record that reads adds one step to the merge. */
  lemma MergeReadStep(records: seq<Record>, i: nat, amountOf: Option<string> -> Num, reading: Reading)
    requires i < |records|
    requires ReadAll(records[..i], amountOf).Success?
    requires ReadRecord(records[i], amountOf) == Success(reading)
    ensures ReadAll(records[..i + 1], amountOf).Success?
    ensures MergeReadings(ReadAll(records[..i + 1], amountOf).value) ==
      MergeStep(MergeReadings(ReadAll(records[..i], amountOf).value), reading, map[])
  {
    ReadAllSnoc(records, i, amountOf);
    var before := ReadAll(records[..i], amountOf).value;
    assert (before + [reading])[..|before|] == before;
  }

  // ---- What the merge keeps ----

  /** The amount of the last reading for `customer` and `slot`, if any. */
  function LastAmount(rs: seq<Reading>, customer: Option<string>, slot: Slot): Option<Num> {
    if rs == [] then None
    else if rs[|rs| - 1].customer == customer && rs[|rs| - 1].slot == slot then Some(rs[|rs| - 1].amount)
    else LastAmount(rs[..|rs| - 1], customer, slot)
  }

  /** The sum, in reading order, of the amounts of `customer`'s readings. */
  function AmountTotal(rs: seq<Reading>, customer: Option<string>): Num {
    if rs == [] then Real(0.0)
    else
      var sum := AmountTotal(rs[..|rs| - 1], customer);
      if rs[|rs| - 1].customer == customer then Add(sum, rs[|rs| - 1].amount) else sum
  }

  lemma {:induction false} NoReadingOfAbsentCustomer(rs: seq<Reading>, customer: Option<string>)
    requires customer !in ReadingCustomers(rs)
    ensures forall slot :: LastAmount(rs, customer, slot) == None
    ensures AmountTotal(rs, customer) == Real(0.0)
  {
    if rs != [] {
      var init := rs[..|rs| - 1];
      assert ReadingCustomers(rs) == ReadingCustomers(init) + [rs[|rs| - 1].customer];
      NoReadingOfAbsentCustomer(init, customer);
    }
  }

  /**
   * One reading either updates the row of its customer (keeping the list of
   * customers) or appends a row for a customer not seen before.
   */
  lemma MergeStepCustomers(acc: seq<Subscription>, r: Reading, base: Cells)
    ensures CustomersOf(MergeStep(acc, r, base)) ==
      if r.customer in CustomersOf(acc) then CustomersOf(acc) else CustomersOf(acc) + [r.customer]
  {
  }

  /**
   * The merged rows list each customer of the input once, in order of the
   * customer's first record; in particular customers are unique.
   */
  lemma {:induction false} MergedCustomers(rs: seq<Reading>, base: Cells)
    ensures CustomersOf(MergeAll(rs, base)) == Dedup(ReadingCustomers(rs))
    ensures Distinct(CustomersOf(MergeAll(rs, base)))
  {
    if rs != [] {
      var init := rs[..|rs| - 1];
      MergedCustomers(init, base);
      MergeStepCustomers(MergeAll(init, base), rs[|rs| - 1], base);
      assert ReadingCustomers(rs)[..|rs| - 1] == ReadingCustomers(init);
    }
  }

  /** The cell a row of `customer` should hold: the last amount read for it, else the starting cell. */
  function Expected(rs: seq<Reading>, customer: Option<string>, slot: Slot, base: Cells): Option<Num> {
    match LastAmount(rs, customer, slot)
    case Some(a) => Some(a)
    case None => CellAt(base, slot)
  }

  /** Every row's cell holds the last amount read for it, else what the row started from. */
  ghost predicate CellsTrackReadings(rows: seq<Subscription>, rs: seq<Reading>, base: Cells) {
    forall k, slot :: 0 <= k < |rows| ==> CellAt(rows[k].cells, slot) == Expected(rs, rows[k].customer, slot, base)
  }

  /** Every row's `total` is the sum of all amounts read for its customer. */
  ghost predicate TotalsTrackReadings(rows: seq<Subscription>, rs: seq<Reading>) {
    forall k :: 0 <= k < |rows| ==> rows[k].total == AmountTotal(rs, rows[k].customer)
  }

  /** Every customer read so far has a row, and no other customer has one. */
  lemma MergedCustomersCover(rs: seq<Reading>, base: Cells)
    ensures forall c :: c in CustomersOf(MergeAll(rs, base)) <==> c in ReadingCustomers(rs)
  {
    MergedCustomers(rs, base);
  }

  /** The last reading, split off: it decides the cell it names and defers to the rest otherwise. */
  lemma LastAmountSnoc(rs: seq<Reading>, customer: Option<string>, slot: Slot)
    requires rs != []
    ensures LastAmount(rs, customer, slot) ==
      if rs[|rs| - 1].customer == customer && rs[|rs| - 1].slot == slot then Some(rs[|rs| - 1].amount)
      else LastAmount(rs[..|rs| - 1], customer, slot)
  {
  }

  lemma CellsStep(acc: seq<Subscription>, rs: seq<Reading>, base: Cells)
    requires rs != []
    requires CellsTrackReadings(acc, rs[..|rs| - 1], base)
    requires Distinct(CustomersOf(acc))
    requires rs[|rs| - 1].customer !in CustomersOf(acc) ==> rs[|rs| - 1].customer !in ReadingCustomers(rs[..|rs| - 1])
    ensures CellsTrackReadings(MergeStep(acc, rs[|rs| - 1], base), rs, base)
  {
    var init, r := rs[..|rs| - 1], rs[|rs| - 1];
    var rows := MergeStep(acc, r, base);
    match FindCustomer(acc, r.customer)
    case Some(k) =>
      forall j, slot | 0 <= j < |rows|
        ensures CellAt(rows[j].cells, slot) == Expected(rs, rows[j].customer, slot, base)
      {
        LastAmountSnoc(rs, rows[j].customer, slot);
        assert CellAt(acc[j].cells, slot) == Expected(init, acc[j].customer, slot, base);
        if j != k {
          assert CustomersOf(acc)[j] != CustomersOf(acc)[k];
        }
      }
    case None =>
      NoReadingOfAbsentCustomer(init, r.customer);
      forall j, slot | 0 <= j < |rows|
        ensures CellAt(rows[j].cells, slot) == Expected(rs, rows[j].customer, slot, base)
      {
        LastAmountSnoc(rs, rows[j].customer, slot);
        if j < |acc| {
          assert CellAt(acc[j].cells, slot) == Expected(init, acc[j].customer, slot, base);
          assert rows[j] == acc[j];
          assert CustomersOf(acc)[j] != r.customer;
        }
      }
  }

  lemma TotalsStep(acc: seq<Subscription>, rs: seq<Reading>, base: Cells)
    requires rs != []
    requires TotalsTrackReadings(acc, rs[..|rs| - 1])
    requires Distinct(CustomersOf(acc))
    requires rs[|rs| - 1].customer !in CustomersOf(acc) ==> rs[|rs| - 1].customer !in ReadingCustomers(rs[..|rs| - 1])
    ensures TotalsTrackReadings(MergeStep(acc, rs[|rs| - 1], base), rs)
  {
    var init, r := rs[..|rs| - 1], rs[|rs| - 1];
    var rows := MergeStep(acc, r, base);
    match FindCustomer(acc, r.customer)
    case Some(k) =>
      forall j | 0 <= j < |rows| ensures rows[j].total == AmountTotal(rs, rows[j].customer) {
        if j != k {
          assert CustomersOf(acc)[j] != CustomersOf(acc)[k];
        }
      }
    case None =>
      NoReadingOfAbsentCustomer(init, r.customer);
      forall j | 0 <= j < |rows| ensures rows[j].total == AmountTotal(rs, rows[j].customer) {
        if j < |acc| {
          assert rows[j] == acc[j];
          assert CustomersOf(acc)[j] != r.customer;
        } else {
          AddLaws(r.amount, r.amount, r.amount);
        }
      }
  }

  /**
   * After the merge, each month of a customer's row holds the amount of the
   * customer's LAST record for that month, and keeps the starting value
   * (`undefined` in the current dashboard) when there is none; the row's
   * `total` is the sum of ALL of the customer's amounts.
   */
  lemma {:induction false} MergedRowContents(rs: seq<Reading>, base: Cells)
    ensures CellsTrackReadings(MergeAll(rs, base), rs, base)
    ensures TotalsTrackReadings(MergeAll(rs, base), rs)
  {
    if rs != [] {
      var init := rs[..|rs| - 1];
      MergedRowContents(init, base);
      MergedCustomers(init, base);
      MergedCustomersCover(init, base);
      CellsStep(MergeAll(init, base), rs, base);
      TotalsStep(MergeAll(init, base), rs, base);
    }
  }

  /** No customer has two records for the same month. */
  predicate NoRepeatedMonth(rs: seq<Reading>) {
    forall i, j :: 0 <= i < j < |rs| ==> rs[i].customer != rs[j].customer || rs[i].slot != rs[j].slot
  }

  /** Every record names a month that `monthMap` knows. */
  predicate KnownMonths(rs: seq<Reading>) {
    forall i :: 0 <= i < |rs| ==> rs[i].slot.MonthSlot?
  }

  lemma {:induction false} LastAmountNone(rs: seq<Reading>, customer: Option<string>, slot: Slot)
    requires forall i :: 0 <= i < |rs| ==> rs[i].customer != customer || rs[i].slot != slot
    ensures LastAmount(rs, customer, slot) == None
  {
    if rs != [] {
      LastAmountNone(rs[..|rs| - 1], customer, slot);
    }
  }

  /**
   * When no customer has two records for one month and every month is
   * known, each merged row's `total` is exactly `calculateTotal` of the row:
   * the sum of its defined months.
   */
  lemma {:induction false} MergedTotalIsRowTotal(rs: seq<Reading>)
    requires NoRepeatedMonth(rs) && KnownMonths(rs)
    ensures forall k :: 0 <= k < |MergeReadings(rs)| ==>
      MergeReadings(rs)[k].total == CalculateTotal(MergeReadings(rs)[k].cells)
  {
    if rs != [] {
      var init := rs[..|rs| - 1];
      var r := rs[|rs| - 1];
      assert NoRepeatedMonth(init) && KnownMonths(init);
      MergedTotalIsRowTotal(init);
      var acc := MergeReadings(init);
      var rows := MergeReadings(rs);
      assert rows == MergeStep(acc, r, map[]);
      match FindCustomer(acc, r.customer)
      case Some(k) =>
        MergedRowContents(init, map[]);
        assert forall i :: 0 <= i < |init| ==> init[i] == rs[i];
        LastAmountNone(init, r.customer, r.slot);
        assert LastAmount(init, acc[k].customer, r.slot) == None;
        assert CellAt(acc[k].cells, r.slot) == Expected(init, acc[k].customer, r.slot, map[]);
        assert CellAt(acc[k].cells, r.slot) == None;
        CalculateTotalInsert(acc[k].cells, r.slot.month, r.amount);
      case None =>
        MonthsTotalEmpty(Months);
        CalculateTotalInsert(map[], r.slot.month, r.amount);
        AddLaws(r.amount, r.amount, r.amount);
    }
  }

  // ---- The two drifts of `total` ----

  /**
   * Two records of one customer for the same month: the month keeps the
   * second amount, `total` counts both, so `total` exceeds the row's sum.
   */
  lemma RepeatedMonthDrifts()
    ensures var rs := [Reading(Some("Acme"), MonthSlot(June), Real(10000.0)),
                       Reading(Some("Acme"), MonthSlot(June), Real(20000.0))];
            var row := MergeReadings(rs)[0];
            |MergeReadings(rs)| == 1 && row.total == Real(30000.0) &&
            CalculateTotal(row.cells) == Real(20000.0)
  {
    var rs := [Reading(Some("Acme"), MonthSlot(June), Real(10000.0)),
               Reading(Some("Acme"), MonthSlot(June), Real(20000.0))];
    assert rs[..1] == [rs[0]];
    assert [rs[0]][..0] == [];
    assert MergeAll([], map[]) == [];
    assert MergeAll([rs[0]], map[]) == MergeStep([], rs[0], map[]);
    assert MergeReadings([rs[0]]) == [Subscription(Some("Acme"), map[MonthSlot(June) := Real(10000.0)], Real(10000.0), None, None, None, None)];
    var cells := map[MonthSlot(June) := Real(20000.0)];
    assert MergeReadings(rs)[0].cells == cells;
    assert cells == map[][MonthSlot(June) := Real(20000.0)];
    MonthsTotalEmpty(Months);
    CalculateTotalInsert(map[], June, Real(20000.0));
  }

  /**
   * A fiscal month whose abbreviation is not in `monthMap` (here `FY25-XYZ`)
   * is stored under the stray "undefined" key: its amount counts in `total`
   * but in no month.
   */
  lemma UnknownMonthDrifts(parseFloat: string -> Option<real>)
    requires parseFloat("5") == Some(5.0)
    ensures var record := map[CustomerColumn := "Acme", FiscalMonthColumn := "FY25-XYZ", ConsumptionColumn := "5"];
            var rows := MergeRecords([record], parseFloat);
            rows.Success? && |rows.value| == 1 &&
            rows.value[0].total == Real(5000.0) && CalculateTotal(rows.value[0].cells) == Real(0.0)
  {
    var record := map[CustomerColumn := "Acme", FiscalMonthColumn := "FY25-XYZ", ConsumptionColumn := "5"];
    assert Drop("FY25-XYZ", 5) == "XYZ";
    assert SlotOf("FY25-XYZ") == UndefinedKey;
    assert Get(record, CustomerColumn) == Some("Acme");
    assert Get(record, FiscalMonthColumn) == Some("FY25-XYZ");
    assert Get(record, ConsumptionColumn) == Some("5");
    assert Consumption(Some("5"), parseFloat) == Real(5000.0);
    assert ReadRecord(record, CurrentAmount(parseFloat)) == Success(Reading(Some("Acme"), UndefinedKey, Real(5000.0)));
    assert [record][..0] == [];
    var rs := [Reading(Some("Acme"), UndefinedKey, Real(5000.0))];
    assert ReadAll([], CurrentAmount(parseFloat)) == Success([]);
    assert ReadAll([record], CurrentAmount(parseFloat)) == Success([] + rs);
    assert [] + rs == rs;
    assert rs[..0] == [];
    assert MergeReadings(rs)[0].cells == map[][UndefinedKey := Real(5000.0)];
    MonthsTotalEmpty(Months);
    MonthsTotalIgnoresStrayKey(map[], Real(5000.0), Months);
  }

  // ---- The merge with `total` kept equal to the row's sum ----

  /** The reduce callback with `total` recomputed from the months after every update. */
  function MergeStepRecomputed(acc: seq<Subscription>, r: Reading): seq<Subscription> {
    match FindCustomer(acc, r.customer)
    case Some(k) =>
      var cells := acc[k].cells[r.slot := r.amount];
      acc[k := acc[k].(cells := cells, total := CalculateTotal(cells))]
    case None =>
      var cells := map[r.slot := r.amount];
      acc + [Subscription(r.customer, cells, CalculateTotal(cells), None, None, None, None)]
  }

  function MergeReadingsRecomputed(rs: seq<Reading>): seq<Subscription> {
    if rs == [] then [] else MergeStepRecomputed(MergeReadingsRecomputed(rs[..|rs| - 1]), rs[|rs| - 1])
  }

  /**
   * With `total` recomputed, every row's `total` is `calculateTotal` of the
   * row on every input, and the rows are otherwise those of the merge as
   * written: same customers in the same order, same months. Only `total`,
   * which no section total or display reads, differs.
   */
  lemma {:induction false} RecomputedMergeKeepsTotal(rs: seq<Reading>)
    ensures |MergeReadingsRecomputed(rs)| == |MergeReadings(rs)|
    ensures forall k :: 0 <= k < |MergeReadings(rs)| ==>
      MergeReadingsRecomputed(rs)[k] ==
        MergeReadings(rs)[k].(total := CalculateTotal(MergeReadings(rs)[k].cells))
  {
    if rs != [] {
      var init := rs[..|rs| - 1];
      RecomputedMergeKeepsTotal(init);
      var a, b := MergeReadingsRecomputed(init), MergeReadings(init);
      assert CustomersOf(a) == CustomersOf(b);
      assert FindCustomer(a, rs[|rs| - 1].customer) == FindCustomer(b, rs[|rs| - 1].customer) by {
        FindCustomerByCustomers(a, b, rs[|rs| - 1].customer);
      }
    }
  }

  lemma {:induction false} FindCustomerByCustomers(a: seq<Subscription>, b: seq<Subscription>, customer: Option<string>)
    requires CustomersOf(a) == CustomersOf(b)
    ensures FindCustomer(a, customer) == FindCustomer(b, customer)
  {
    if a != [] {
      assert CustomersOf(a[1..]) == CustomersOf(a)[1..];
      assert CustomersOf(b[1..]) == CustomersOf(b)[1..];
      FindCustomerByCustomers(a[1..], b[1..], customer);
    }
  }

  // ---- Only the owner's records contribute ----

  /**
   * Adding a record of another owner anywhere in the file leaves the
   * owner's records, and so every merge of them, as they were.
   */
  lemma OtherOwnersIgnored(before: seq<Record>, other: Record, after: seq<Record>, email: string)
    requires !OwnedBy(other, email)
    ensures FilterByOwner(before + [other] + after, email) == FilterByOwner(before + after, email)
  {
    assert FilterByOwner([other], email) == [] by {
      assert [other][..0] == [];
    }
    FilterConcat(before, [other], email);
    assert FilterByOwner(before + [other], email) == FilterByOwner(before, email);
    FilterConcat(before + [other], after, email);
    FilterConcat(before, after, email);
  }
}
