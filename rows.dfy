/**
 * The `Subscription` row of the current dashboard: one customer's amounts
 * per month plus the pipeline attributes, held in one JavaScript object.
 * Month amounts are properties named after the month; a property that is
 * `undefined` is absent from `cells`. `UndefinedKey` is the property named
 * "undefined" that `row[month] = ...` writes when `month` itself is
 * `undefined`.
 */
module Rows {
  import opened Wrappers
  import opened Calendar
  import opened Values

  datatype Slot = MonthSlot(month: Month) | UndefinedKey

  type Cells = map<Slot, Num>

  /** `row[slot]`, with None for `undefined`. */
  function CellAt(cells: Cells, slot: Slot): Option<Num> {
    if slot in cells then Some(cells[slot]) else None
  }

  datatype Subscription = Subscription(
    customer: Option<string>,
    cells: Cells,
    total: Num,
    neAmount: Option<Num>,
    wlAmount: Option<Num>,
    closeDate: Option<string>,
    probability: Option<int>)

  /** All twelve months set to 0, the state of a fresh pipeline row. */
  function ZeroMonths(): (cells: Cells)
    ensures forall m: Month :: CellAt(cells, MonthSlot(m)) == Some(Real(0.0))
    ensures UndefinedKey !in cells
  {
    var zero := Real(0.0);
    var cells := map[MonthSlot(June) := zero, MonthSlot(July) := zero, MonthSlot(August) := zero,
        MonthSlot(September) := zero, MonthSlot(October) := zero, MonthSlot(November) := zero,
        MonthSlot(December) := zero, MonthSlot(January) := zero, MonthSlot(February) := zero,
        MonthSlot(March) := zero, MonthSlot(April) := zero, MonthSlot(May) := zero];
    assert forall m: Month :: MonthSlot(m) in cells by {
      forall m: Month ensures MonthSlot(m) in cells {
        MonthCases(m);
      }
    }
    cells
  }

  /** The `calculateTotal` fold over the months `ms`: numbers add up, `undefined` is skipped. */
  function MonthsTotal(cells: Cells, ms: seq<Month>): Num {
    if ms == [] then Real(0.0)
    else
      var acc := MonthsTotal(cells, ms[..|ms| - 1]);
      match CellAt(cells, MonthSlot(ms[|ms| - 1]))
      case Some(v) => Add(acc, v)
      case None => acc
  }

  /** Sum over the months `ms` of `Number(row[m]) || 0`. */
  function MonthsOrZero(cells: Cells, ms: seq<Month>): real {
    if ms == [] then 0.0
    else MonthsOrZero(cells, ms[..|ms| - 1]) + OrZero(CellAt(cells, MonthSlot(ms[|ms| - 1])))
  }

  predicate HasNaN(cells: Cells, ms: seq<Month>) {
    exists i :: 0 <= i < |ms| && CellAt(cells, MonthSlot(ms[i])) == Some(NotANumber)
  }

  /**
   * `calculateTotal(row)`: the sum of the row's month properties that hold
   * a number. Other properties (`total`, `neAmount`, the stray "undefined"
   * key) do not take part.
   */
  function CalculateTotal(cells: Cells): Num {
    MonthsTotal(cells, Months)
  }

  /**
   * The row total is NaN exactly when a month holds NaN, and otherwise the
   * sum of the defined months.
   */
  lemma {:induction false} MonthsTotalMeaning(cells: Cells, ms: seq<Month>)
    ensures MonthsTotal(cells, ms).NotANumber? <==> HasNaN(cells, ms)
    ensures !HasNaN(cells, ms) ==> MonthsTotal(cells, ms) == Real(MonthsOrZero(cells, ms))
  {
    if ms != [] {
      var init := ms[..|ms| - 1];
      MonthsTotalMeaning(cells, init);
      assert HasNaN(cells, ms) <==>
        (HasNaN(cells, init) || CellAt(cells, MonthSlot(ms[|ms| - 1])) == Some(NotANumber))
      by {
        if HasNaN(cells, init) {
          var i :| 0 <= i < |init| && CellAt(cells, MonthSlot(init[i])) == Some(NotANumber);
          assert ms[i] == init[i];
        }
        if HasNaN(cells, ms) {
          var i :| 0 <= i < |ms| && CellAt(cells, MonthSlot(ms[i])) == Some(NotANumber);
          if i < |init| { assert ms[i] == init[i]; }
        }
      }
    }
  }

  lemma CalculateTotalMeaning(cells: Cells)
    ensures CalculateTotal(cells).NotANumber? <==> HasNaN(cells, Months)
    ensures !HasNaN(cells, Months) ==> CalculateTotal(cells) == Real(MonthsOrZero(cells, Months))
  {
    MonthsTotalMeaning(cells, Months);
  }

  /**
   * Setting a month that was `undefined` adds its amount to the row total
   * (the months are listed once each).
   */
  lemma {:induction false} MonthsTotalInsert(cells: Cells, m: Month, a: Num, ms: seq<Month>)
    requires MonthSlot(m) !in cells
    requires forall i, j :: 0 <= i < j < |ms| ==> ms[i] != ms[j]
    ensures MonthsTotal(cells[MonthSlot(m) := a], ms) ==
      if m in ms then Add(MonthsTotal(cells, ms), a) else MonthsTotal(cells, ms)
  {
    if ms != [] {
      var init := ms[..|ms| - 1];
      var x := ms[|ms| - 1];
      MonthsTotalInsert(cells, m, a, init);
      assert m in ms <==> m in init || m == x by {
        assert ms == init + [x];
      }
      if x == m {
        assert m !in init;
      } else {
        var acc := MonthsTotal(cells, init);
        match CellAt(cells, MonthSlot(x))
        case Some(v) =>
          AddLaws(acc, v, a);
          AddLaws(acc, a, v);
          AddLaws(v, a, Real(0.0));
        case None =>
      }
    }
  }

  lemma CalculateTotalInsert(cells: Cells, m: Month, a: Num)
    requires MonthSlot(m) !in cells
    ensures CalculateTotal(cells[MonthSlot(m) := a]) == Add(CalculateTotal(cells), a)
  {
    MonthsEnumerateYear();
    MonthsTotalInsert(cells, m, a, Months);
  }

  /** The row total reads only month properties. */
  lemma {:induction false} MonthsTotalIgnoresStrayKey(cells: Cells, v: Num, ms: seq<Month>)
    ensures MonthsTotal(cells[UndefinedKey := v], ms) == MonthsTotal(cells, ms)
  {
    if ms != [] {
      MonthsTotalIgnoresStrayKey(cells, v, ms[..|ms| - 1]);
    }
  }

  lemma {:induction false} MonthsTotalEmpty(ms: seq<Month>)
    ensures MonthsTotal(map[], ms) == Real(0.0)
  {
    if ms != [] {
      MonthsTotalEmpty(ms[..|ms| - 1]);
    }
  }
}
