/**
 * The JavaScript string operations the dashboards rely on, over `string`
 * (a sequence of characters): `split` on one separator character, `trim`,
 * `slice(n)` and the `replace(/[^0-9.-]+/g, "")` filter of currency input.
 */
module Text {

  /**
   * The characters `String.prototype.trim` removes: ECMAScript WhiteSpace
   * (tab, vertical tab, form feed, space, no-break space, byte order mark and
   * the Unicode space separators) and LineTerminator (LF, CR, U+2028, U+2029).
   */
  predicate IsWhitespace(c: char) {
    c == '\t' || c == '\U{000B}' || c == '\U{000C}' || c == ' ' ||
    c == '\U{00A0}' || c == '\U{FEFF}' || c == '\U{1680}' ||
    ('\U{2000}' <= c <= '\U{200A}') || c == '\U{202F}' || c == '\U{205F}' ||
    c == '\U{3000}' || c == '\n' || c == '\r' || c == '\U{2028}' || c == '\U{2029}'
  }

  /** Number of occurrences of `c` in `s`. */
  function Count(s: string, c: char): nat {
    if s == [] then 0 else Count(s[1..], c) + (if s[0] == c then 1 else 0)
  }

  /** Position of the first occurrence of `c` in `s`. */
  function IndexOf(s: string, c: char): (k: nat)
    requires c in s
    ensures k < |s| && s[k] == c && c !in s[..k]
  {
    if s[0] == c then 0 else IndexOf(s[1..], c) + 1
  }

  /**
   * `s.split(d)` for a one-character separator: the pieces between
   * occurrences of `d`, empty pieces included; `"".split(d)` is `[""]`.
   */
  function Split(s: string, d: char): (parts: seq<string>)
    ensures |parts| >= 1
    ensures forall i :: 0 <= i < |parts| ==> d !in parts[i]
    decreases |s|
  {
    if d in s then
      var k := IndexOf(s, d);
      [s[..k]] + Split(s[k + 1..], d)
    else
      [s]
  }

  /** `parts.join(d)`: the inverse of `Split`. */
  function Join(parts: seq<string>, d: char): string
    requires |parts| >= 1
  {
    if |parts| == 1 then parts[0] else parts[0] + [d] + Join(parts[1..], d)
  }

  /** Splitting loses nothing: joining the pieces restores the text. */
  lemma {:induction false} JoinSplit(s: string, d: char)
    ensures Join(Split(s, d), d) == s
    decreases |s|
  {
    if d in s {
      var k := IndexOf(s, d);
      var rest := s[k + 1..];
      var parts := Split(s, d);
      assert parts == [s[..k]] + Split(rest, d);
      assert parts[1..] == Split(rest, d);
      JoinSplit(rest, d);
      assert Join(parts, d) == s[..k] + [d] + rest;
      assert s == s[..k] + [d] + rest;
    }
  }

  /** Pieces free of the separator are exactly what splitting their join yields. */
  lemma {:induction false} SplitJoin(parts: seq<string>, d: char)
    requires |parts| >= 1
    requires forall i :: 0 <= i < |parts| ==> d !in parts[i]
    ensures Split(Join(parts, d), d) == parts
  {
    if |parts| > 1 {
      var s, rest := Join(parts, d), Join(parts[1..], d);
      assert s == parts[0] + [d] + rest;
      FirstSeparator(parts[0], d, rest);
      assert s[..|parts[0]|] == parts[0];
      assert s[|parts[0]| + 1..] == rest;
      assert Split(s, d) == [parts[0]] + Split(rest, d);
      SplitJoin(parts[1..], d);
      assert parts == [parts[0]] + parts[1..];
    }
  }

  /** In `p + [d] + rest` with `d` not in `p`, the first `d` follows `p`. */
  lemma {:induction false} FirstSeparator(p: string, d: char, rest: string)
    requires d !in p
    ensures d in p + [d] + rest && IndexOf(p + [d] + rest, d) == |p|
  {
    var s := p + [d] + rest;
    assert s[|p|] == d;
    if p != [] {
      assert s[1..] == p[1..] + [d] + rest;
      FirstSeparator(p[1..], d, rest);
    }
  }

  /** There is one more piece than there are separators. */
  lemma {:induction false} SplitCount(s: string, d: char)
    ensures |Split(s, d)| == Count(s, d) + 1
    decreases |s|
  {
    if d in s {
      var k := IndexOf(s, d);
      SplitCount(s[k + 1..], d);
      CountAppend(s[..k], s[k..], d);
      CountAppend([s[k]], s[k + 1..], d);
      assert s[k..] == [s[k]] + s[k + 1..];
      CountAbsent(s[..k], d);
      assert s == s[..k] + s[k..];
    } else {
      CountAbsent(s, d);
    }
  }

  lemma {:induction false} CountAppend(a: string, b: string, c: char)
    ensures Count(a + b, c) == Count(a, c) + Count(b, c)
  {
    if a == [] {
      assert a + b == b;
    } else {
      assert (a + b)[1..] == a[1..] + b;
      CountAppend(a[1..], b, c);
    }
  }

  lemma {:induction false} CountAbsent(s: string, c: char)
    requires c !in s
    ensures Count(s, c) == 0
  {
    if s != [] {
      assert c !in s[1..];
      CountAbsent(s[1..], c);
    }
  }

  /** Number of leading whitespace characters of `s`. */
  function LeadingWhitespace(s: string): (i: nat)
    ensures i <= |s|
    ensures forall k :: 0 <= k < i ==> IsWhitespace(s[k])
    ensures i < |s| ==> !IsWhitespace(s[i])
  {
    if s != [] && IsWhitespace(s[0]) then LeadingWhitespace(s[1..]) + 1 else 0
  }

  /** Start of the trailing run of whitespace of `s`. */
  function TrailingWhitespace(s: string): (j: nat)
    ensures j <= |s|
    ensures forall k :: j <= k < |s| ==> IsWhitespace(s[k])
    ensures 0 < j ==> !IsWhitespace(s[j - 1])
  {
    if s != [] && IsWhitespace(s[|s| - 1]) then TrailingWhitespace(s[..|s| - 1]) else |s|
  }

  /**
   * `s.trim()`: `s` without its leading and trailing whitespace. The result
   * is the infix `s[i..j]` with only whitespace before `i` and after `j`,
   * and it neither starts nor ends with whitespace.
   */
  function Trim(s: string): (r: string)
    ensures exists i, j ::
      (0 <= i <= j <= |s| && r == s[i..j] &&
       (forall k :: 0 <= k < i ==> IsWhitespace(s[k])) &&
       (forall k :: j <= k < |s| ==> IsWhitespace(s[k])))
    ensures r != [] ==> !IsWhitespace(r[0]) && !IsWhitespace(r[|r| - 1])
  {
    var i, j := LeadingWhitespace(s), TrailingWhitespace(s);
    if i == |s| then
      assert s[i..i] == [];
      []
    else
      assert !IsWhitespace(s[i]);
      s[i..j]
  }

  /** Text that does not start or end with whitespace is left as it is. */
  lemma TrimUntouched(s: string)
    requires s == [] || (!IsWhitespace(s[0]) && !IsWhitespace(s[|s| - 1]))
    ensures Trim(s) == s
  {
  }

  /** Trimming twice is trimming once. */
  lemma TrimIdempotent(s: string)
    ensures Trim(Trim(s)) == Trim(s)
  {
    TrimUntouched(Trim(s));
  }

  /** `s.slice(n)` for a non-negative start: `s` without its first `n` characters. */
  function Drop(s: string, n: nat): (r: string)
    ensures |r| == if n <= |s| then |s| - n else 0
    ensures forall k :: 0 <= k < |r| ==> r[k] == s[n + k]
  {
    if n <= |s| then s[n..] else []
  }

  /** Slicing off a prefix of length `n` leaves exactly the rest: `("FY25-" + abbr).slice(5) == abbr`. */
  lemma DropAfterPrefix(p: string, s: string)
    ensures Drop(p + s, |p|) == s
  {
    assert (p + s)[|p|..] == s;
  }

  /** The characters the class `[0-9.-]` admits. */
  predicate IsNumericChar(c: char) {
    ('0' <= c <= '9') || c == '.' || c == '-'
  }

  /** `s.replace(/[^0-9.-]+/g, "")`: `s` with every other character removed. */
  function KeepNumeric(s: string): (r: string)
    ensures |r| <= |s|
    ensures forall k :: 0 <= k < |r| ==> IsNumericChar(r[k])
  {
    if s == [] then []
    else if IsNumericChar(s[0]) then [s[0]] + KeepNumeric(s[1..])
    else KeepNumeric(s[1..])
  }

  /**
   * The filter keeps every digit, point and minus sign, as many times as it
   * occurs, and drops every other character.
   */
  lemma {:induction false} KeepNumericCounts(s: string, c: char)
    ensures Count(KeepNumeric(s), c) == if IsNumericChar(c) then Count(s, c) else 0
  {
    if s != [] {
      KeepNumericCounts(s[1..], c);
      if IsNumericChar(s[0]) {
        assert ([s[0]] + KeepNumeric(s[1..]))[1..] == KeepNumeric(s[1..]);
      }
    }
  }

  /** Text made of digits, points and minus signs passes through unchanged. */
  lemma {:induction false} KeepNumericUntouched(s: string)
    requires forall k :: 0 <= k < |s| ==> IsNumericChar(s[k])
    ensures KeepNumeric(s) == s
  {
    if s != [] {
      KeepNumericUntouched(s[1..]);
      assert s == [s[0]] + s[1..];
    }
  }

  /** A single character is kept exactly when the class admits it. */
  lemma KeepNumericChar(c: char)
    ensures KeepNumeric([c]) == if IsNumericChar(c) then [c] else []
  {
    assert [c][1..] == [];
  }

  /**
   * The filter works character by character and keeps the order: the
   * filtered text of `a + b` is the filtered `a` followed by the filtered `b`.
   */
  lemma {:induction false} KeepNumericConcat(a: string, b: string)
    ensures KeepNumeric(a + b) == KeepNumeric(a) + KeepNumeric(b)
  {
    if a == [] {
      assert a + b == b;
    } else {
      assert (a + b)[0] == a[0];
      assert (a + b)[1..] == a[1..] + b;
      KeepNumericConcat(a[1..], b);
    }
  }

  /** Filtering twice is filtering once. */
  lemma KeepNumericIdempotent(s: string)
    ensures KeepNumeric(KeepNumeric(s)) == KeepNumeric(s)
  {
    KeepNumericUntouched(KeepNumeric(s));
  }
}
