/**
 * The naive CSV splitter `parseCsvData` of both dashboards: the text is
 * cut at every `\n`, the first line gives the headers, and every later
 * line becomes a record from header to field, both cut at every `,`.
 * The current dashboard trims headers and fields; the legacy one does not.
 * Quoted fields are not recognised by either.
 */
module Csv {
  import opened Wrappers
  import opened Text

  /**
   * A parsed record from header to field text. A header whose field is
   * `undefined` (past the end of a short line) is absent from the map.
   */
  type Record = map<string, string>

  /** `record[key]`, with None for `undefined`. */
  function Get(record: Record, key: string): Option<string> {
    if key in record then Some(record[key]) else None
  }

  /** `values[index]`: the field at `index`, or `undefined` past the end. */
  function FieldAt(values: seq<string>, index: nat): Option<string> {
    if index < |values| then Some(values[index]) else None
  }

  /** `obj[header] = value`; storing `undefined` leaves the header unset. */
  function Assign(obj: Record, header: string, value: Option<string>): Record {
    match value
    case Some(v) => obj[header := v]
    case None => obj - {header}
  }

  /** The record after the `headers.reduce` callback has run for the first `n` headers. */
  function BuildPrefix(headers: seq<string>, values: seq<string>, n: nat): Record
    requires n <= |headers|
  {
    if n == 0 then map[]
    else Assign(BuildPrefix(headers, values, n - 1), headers[n - 1], FieldAt(values, n - 1))
  }

  /** `headers.reduce((obj, header, index) => { obj[header] = values[index]; ... }, {})`. */
  function BuildRecord(headers: seq<string>, values: seq<string>): Record {
    BuildPrefix(headers, values, |headers|)
  }

  /** No later header has the same name as `headers[i]`, so its assignment is the last. */
  predicate LastOccurrence(headers: seq<string>, i: nat)
    requires i < |headers|
  {
    forall j :: i < j < |headers| ==> headers[j] != headers[i]
  }

  /**
   * Each header (at its last occurrence) holds the field at its own
   * position, or is unset when the line is shorter; a record has no key
   * that is not a header.
   */
  lemma {:induction false} BuildPrefixField(headers: seq<string>, values: seq<string>, n: nat, i: nat)
    requires i < n <= |headers|
    requires forall j :: i < j < n ==> headers[j] != headers[i]
    ensures Get(BuildPrefix(headers, values, n), headers[i]) == FieldAt(values, i)
  {
    if i < n - 1 {
      BuildPrefixField(headers, values, n - 1, i);
    }
  }

  lemma {:induction false} BuildPrefixKeys(headers: seq<string>, values: seq<string>, n: nat)
    requires n <= |headers|
    ensures forall k :: k in BuildPrefix(headers, values, n) ==> k in headers[..n]
  {
    if n > 0 {
      BuildPrefixKeys(headers, values, n - 1);
      assert headers[..n] == headers[..n - 1] + [headers[n - 1]];
    }
  }

  lemma BuildRecordFields(headers: seq<string>, values: seq<string>)
    ensures forall i :: 0 <= i < |headers| && LastOccurrence(headers, i) ==>
      Get(BuildRecord(headers, values), headers[i]) == FieldAt(values, i)
    ensures forall k :: k in BuildRecord(headers, values) ==> k in headers
  {
    forall i | 0 <= i < |headers| && LastOccurrence(headers, i)
      ensures Get(BuildRecord(headers, values), headers[i]) == FieldAt(values, i)
    {
      BuildPrefixField(headers, values, |headers|, i);
    }
    BuildPrefixKeys(headers, values, |headers|);
    assert headers[..|headers|] == headers;
  }

  /** `xs.map(x => x.trim())`. */
  function TrimAll(xs: seq<string>): (r: seq<string>)
    ensures |r| == |xs|
    ensures forall i :: 0 <= i < |xs| ==> r[i] == Trim(xs[i])
  {
    seq(|xs|, i requires 0 <= i < |xs| => Trim(xs[i]))
  }

  /** `csvString.split('\n')`. */
  function Lines(text: string): (lines: seq<string>)
    ensures |lines| >= 1
  {
    Split(text, '\n')
  }

  /** `line.split(',')`. */
  function Cells(line: string): seq<string> {
    Split(line, ',')
  }

  /** The current `parseCsvData`: headers and fields trimmed. */
  function ParseCsvData(text: string): seq<Record> {
    var lines := Lines(text);
    var headers := TrimAll(Cells(lines[0]));
    seq(|lines| - 1, i requires 0 <= i < |lines| - 1 => BuildRecord(headers, TrimAll(Cells(lines[i + 1]))))
  }

  /** The legacy `parseCsvData`: headers and fields kept as they are. */
  function ParseCsvDataLegacy(text: string): seq<Record> {
    var lines := Lines(text);
    var headers := Cells(lines[0]);
    seq(|lines| - 1, i requires 0 <= i < |lines| - 1 => BuildRecord(headers, Cells(lines[i + 1])))
  }

  /** Both parsers yield one record per line after the first, that is one per newline character. */
  lemma ParseCsvDataCount(text: string)
    ensures |ParseCsvData(text)| == |ParseCsvDataLegacy(text)| == |Lines(text)| - 1 == Count(text, '\n')
  {
    SplitCount(text, '\n');
  }

  /**
   * In record `i` of the current parser each trimmed header (at its
   * last occurrence) holds the trimmed field at the same position of line
   * `i + 1`, or is absent when that line has fewer fields, and no other key
   * is present.
   */
  lemma ParseCsvDataFields(text: string, i: nat)
    requires i + 1 < |Lines(text)|
    ensures var headers := TrimAll(Cells(Lines(text)[0]));
            var values := Cells(Lines(text)[i + 1]);
            (forall h :: 0 <= h < |headers| && LastOccurrence(headers, h) ==>
               Get(ParseCsvData(text)[i], headers[h]) ==
               (if h < |values| then Some(Trim(values[h])) else None)) &&
            (forall k :: k in ParseCsvData(text)[i] ==> k in headers)
  {
    var lines := Lines(text);
    var headers := TrimAll(Cells(lines[0]));
    var values := Cells(lines[i + 1]);
    assert ParseCsvData(text)[i] == BuildRecord(headers, TrimAll(values));
    TrimmedRecordFields(headers, values);
  }

  lemma TrimmedRecordFields(headers: seq<string>, values: seq<string>)
    ensures forall h :: 0 <= h < |headers| && LastOccurrence(headers, h) ==>
      Get(BuildRecord(headers, TrimAll(values)), headers[h]) ==
      (if h < |values| then Some(Trim(values[h])) else None)
    ensures forall k :: k in BuildRecord(headers, TrimAll(values)) ==> k in headers
  {
    var record := BuildRecord(headers, TrimAll(values));
    BuildRecordFields(headers, TrimAll(values));
    forall h | 0 <= h < |headers| && LastOccurrence(headers, h)
      ensures Get(record, headers[h]) == (if h < |values| then Some(Trim(values[h])) else None)
    {
      assert Get(record, headers[h]) == FieldAt(TrimAll(values), h);
    }
  }

  /**
   * In record `i` of the legacy parser each header
   * holds its field untrimmed (a carriage return or a space stays part of
   * the header and of the value).
   */
  lemma ParseCsvDataLegacyFields(text: string, i: nat)
    requires i + 1 < |Lines(text)|
    ensures var headers := Cells(Lines(text)[0]);
            var values := Cells(Lines(text)[i + 1]);
            (forall h :: 0 <= h < |headers| && LastOccurrence(headers, h) ==>
               Get(ParseCsvDataLegacy(text)[i], headers[h]) == FieldAt(values, h)) &&
            (forall k :: k in ParseCsvDataLegacy(text)[i] ==> k in headers)
  {
    BuildRecordFields(Cells(Lines(text)[0]), Cells(Lines(text)[i + 1]));
  }

  /** Every field of the line is already free of surrounding whitespace. */
  predicate LineTrimmed(line: string) {
    forall f :: 0 <= f < |Cells(line)| ==> Trim(Cells(line)[f]) == Cells(line)[f]
  }

  /** On text whose fields carry no surrounding whitespace the two parsers agree. */
  lemma ParsersAgreeOnTrimmedText(text: string)
    requires forall l :: 0 <= l < |Lines(text)| ==> LineTrimmed(Lines(text)[l])
    ensures ParseCsvData(text) == ParseCsvDataLegacy(text)
  {
    var lines := Lines(text);
    assert LineTrimmed(lines[0]);
    assert TrimAll(Cells(lines[0])) == Cells(lines[0]);
    forall l | 0 <= l < |lines|
      ensures TrimAll(Cells(lines[l])) == Cells(lines[l])
    {
      assert LineTrimmed(lines[l]);
    }
  }
}
