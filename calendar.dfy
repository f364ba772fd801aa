/**
 * The fiscal calendar shared by both dashboards: the twelve months of a
 * fiscal year that runs June to May, their property names (`months`) and
 * the three-letter abbreviation table (`monthMap`) used to read the
 * `Fiscal Month` column (`FY25-JUN`).
 */
module Calendar {
  import opened Wrappers

  datatype Month =
    June | July | August | September | October | November |
    December | January | February | March | April | May

  /** The fiscal year in display order, June first and May last. */
  const Months: seq<Month> :=
    [June, July, August, September, October, November,
     December, January, February, March, April, May]

  /** The `months` list of property names, in the same order. */
  const MonthNames: seq<string> :=
    ["june", "july", "august", "september", "october", "november",
     "december", "january", "february", "march", "april", "may"]

  /** The `monthMap` table from abbreviation to property name. */
  const MonthMap: map<string, string> :=
    map["JUN" := "june", "JUL" := "july", "AUG" := "august", "SEP" := "september",
        "OCT" := "october", "NOV" := "november", "DEC" := "december", "JAN" := "january",
        "FEB" := "february", "MAR" := "march", "APR" := "april", "MAY" := "may"]

  /** The property name under which a row stores the amount of month `m`. */
  function Name(m: Month): string {
    match m
    case June => "june"
    case July => "july"
    case August => "august"
    case September => "september"
    case October => "october"
    case November => "november"
    case December => "december"
    case January => "january"
    case February => "february"
    case March => "march"
    case April => "april"
    case May => "may"
  }

  /** The abbreviation of month `m` in the `Fiscal Month` column. */
  function Abbrev(m: Month): string {
    match m
    case June => "JUN"
    case July => "JUL"
    case August => "AUG"
    case September => "SEP"
    case October => "OCT"
    case November => "NOV"
    case December => "DEC"
    case January => "JAN"
    case February => "FEB"
    case March => "MAR"
    case April => "APR"
    case May => "MAY"
  }

  /** Position of `m` in the fiscal year (June is 0, May is 11). */
  function Index(m: Month): (i: nat)
    ensures i < |Months| && Months[i] == m
  {
    match m
    case June => 0
    case July => 1
    case August => 2
    case September => 3
    case October => 4
    case November => 5
    case December => 6
    case January => 7
    case February => 8
    case March => 9
    case April => 10
    case May => 11
  }

  /**
   * `monthMap[abbr]` read back as a month: None is the `undefined` that an
   * abbreviation outside the table yields.
   */
  function MonthOfAbbrev(abbr: string): (r: Option<Month>)
    ensures r.Some? <==> abbr in MonthMap
    ensures r.Some? ==> Abbrev(r.value) == abbr && MonthMap[abbr] == Name(r.value)
  {
    if abbr == "JUN" then Some(June)
    else if abbr == "JUL" then Some(July)
    else if abbr == "AUG" then Some(August)
    else if abbr == "SEP" then Some(September)
    else if abbr == "OCT" then Some(October)
    else if abbr == "NOV" then Some(November)
    else if abbr == "DEC" then Some(December)
    else if abbr == "JAN" then Some(January)
    else if abbr == "FEB" then Some(February)
    else if abbr == "MAR" then Some(March)
    else if abbr == "APR" then Some(April)
    else if abbr == "MAY" then Some(May)
    else None
  }

  /** `months` lists every month exactly once, June to May, under its name. */
  lemma MonthsEnumerateYear()
    ensures |Months| == 12 && |MonthNames| == 12
    ensures forall m: Month :: m in Months
    ensures forall i, j :: 0 <= i < j < |Months| ==> Months[i] != Months[j]
    ensures forall i :: 0 <= i < |Months| ==> MonthNames[i] == Name(Months[i]) && Index(Months[i]) == i
    ensures Months[0] == June && Months[11] == May
  {
    forall i | 0 <= i < |Months| ensures MonthNames[i] == Name(Months[i]) && Index(Months[i]) == i {
    }
    forall i, j | 0 <= i < j < |Months| ensures Months[i] != Months[j] {
      assert Index(Months[i]) == i && Index(Months[j]) == j;
    }
    forall m: Month ensures m in Months {
      assert Months[Index(m)] == m;
    }
  }

  /**
   * The keys of `monthMap` are exactly the twelve abbreviations, and each
   * month's abbreviation maps to that month's name.
   */
  lemma MonthMapKeys()
    ensures MonthMap.Keys == set m: Month | m in Months :: Abbrev(m)
    ensures forall m: Month :: Abbrev(m) in MonthMap && MonthMap[Abbrev(m)] == Name(m)
  {
    MonthsEnumerateYear();
    MonthMapInjective();
    var abbrevs := set m: Month | m in Months :: Abbrev(m);
    forall a | a in MonthMap ensures a in abbrevs {
      assert Abbrev(MonthOfAbbrev(a).value) == a;
    }
    forall a | a in abbrevs ensures a in MonthMap {
      var m :| m in Months && Abbrev(m) == a;
    }
  }

  /** The values of `monthMap` are exactly the names listed in `months`. */
  lemma MonthMapValues()
    ensures MonthMap.Values == set i | 0 <= i < |MonthNames| :: MonthNames[i]
  {
    MonthsEnumerateYear();
    MonthMapInjective();
    var names := set i | 0 <= i < |MonthNames| :: MonthNames[i];
    forall v | v in MonthMap.Values ensures v in names {
      var a :| a in MonthMap && MonthMap[a] == v;
      var m := MonthOfAbbrev(a).value;
      assert MonthNames[Index(m)] == v;
    }
    forall v | v in names ensures v in MonthMap.Values {
      var i :| 0 <= i < |MonthNames| && MonthNames[i] == v;
      assert MonthMap[Abbrev(Months[i])] == v;
    }
  }

  /**
   * `monthMap` is one-to-one, and reading a month's abbreviation back gives
   * that month.
   */
  lemma MonthMapInjective()
    ensures forall a, b :: a in MonthMap && b in MonthMap && a != b ==> MonthMap[a] != MonthMap[b]
    ensures forall m: Month :: MonthOfAbbrev(Abbrev(m)) == Some(m)
  {
    forall a, b | a in MonthMap && b in MonthMap && a != b
      ensures MonthMap[a] != MonthMap[b]
    {
      var ma, mb := MonthOfAbbrev(a).value, MonthOfAbbrev(b).value;
      assert Abbrev(ma) == a && Abbrev(mb) == b;
      NameInjective(ma, mb);
    }
    forall m: Month ensures MonthOfAbbrev(Abbrev(m)) == Some(m) {
      AbbrevInjective(m, MonthOfAbbrev(Abbrev(m)).value);
    }
  }

  /** Every month is listed in `Months`. */
  lemma AllMonthsListed(m: Month)
    ensures m in Months
  {
    assert Months[Index(m)] == m;
  }

  lemma MonthCases(m: Month)
    ensures m == June || m == July || m == August || m == September ||
            m == October || m == November || m == December || m == January ||
            m == February || m == March || m == April || m == May
  {
  }

  lemma NameInjective(a: Month, b: Month)
    ensures Name(a) == Name(b) ==> a == b
  {
  }

  lemma AbbrevInjective(a: Month, b: Month)
    ensures Abbrev(a) == Abbrev(b) ==> a == b
  {
  }
}
