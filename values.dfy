/**
 * The JavaScript numbers that flow through the dashboards' rows. Amounts
 * are read with `parseFloat(...) * 1000`, so a cell holds either a finite
 * number or NaN (a field that did not parse). Money is exact here: `real`
 * stands for the finite numbers, without rounding.
 */
module Values {
  import opened Wrappers

  datatype Num = Real(r: real) | NotANumber

  /** The input is in thousands; rows are in base currency units. */
  const UnitScale: real := 1000.0

  /** JavaScript `+` on two numbers: NaN absorbs. */
  function Add(a: Num, b: Num): (s: Num)
    ensures s.Real? <==> a.Real? && b.Real?
    ensures s.Real? ==> s.r == a.r + b.r
  {
    if a.Real? && b.Real? then Real(a.r + b.r) else NotANumber
  }

  /** `parseFloat(text) * 1000`, given what `parseFloat` made of the text (None is NaN). */
  function Scale(parsed: Option<real>): (n: Num)
    ensures n.Real? <==> parsed.Some?
    ensures n.Real? ==> n.r == parsed.value * UnitScale
  {
    match parsed
    case Some(v) => Real(v * UnitScale)
    case None => NotANumber
  }

  /** `parseFloat(field)`: an `undefined` field reads as the text "undefined", which is NaN. */
  function ParseField(parseFloat: string -> Option<real>, field: Option<string>): Option<real> {
    match field
    case Some(text) => parseFloat(text)
    case None => None
  }

  /**
   * `Number(v) || 0` for a cell that holds a number or is `undefined`:
   * the number itself, or 0 for `undefined` and NaN.
   */
  function OrZero(v: Option<Num>): (x: real)
    ensures v.Some? && v.value.Real? ==> x == v.value.r
    ensures v.None? || v.value.NotANumber? ==> x == 0.0
  {
    if v.Some? && v.value.Real? then v.value.r else 0.0
  }

  /** `a + b` is commutative and associative on these numbers, with 0 as unit. */
  lemma AddLaws(a: Num, b: Num, c: Num)
    ensures Add(a, b) == Add(b, a)
    ensures Add(Add(a, b), c) == Add(a, Add(b, c))
    ensures Add(Real(0.0), a) == a
  {
  }
}
