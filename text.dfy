/**
 * The string operations of .NET that the shell relies on, restricted to ASCII:
 * digit and letter tests, `int.ToString`, `int.TryParse`, `String.Split`,
 * `String.Join`, `IndexOf`, `LastIndexOf`, `EndsWith` and `Replace`.
 */
module Text {
  import opened Wrappers

  predicate IsDigit(c: char) { '0' <= c <= '9' }

  predicate IsLetterOrDigit(c: char) { IsDigit(c) || 'a' <= c <= 'z' || 'A' <= c <= 'Z' }

  /** A character that may follow `$` in a variable reference of an arithmetic expression. */
  predicate IsNameChar(c: char) { IsLetterOrDigit(c) || c == '_' }

  /** ASCII white space: tab, line feed, vertical tab, form feed, carriage return, space. */
  predicate IsWhiteSpace(c: char) { 9 <= c as int <= 13 || c == ' ' }

  predicate IsSlash(c: char) { c == '/' }

  function DigitValue(c: char): (d: nat)
    requires IsDigit(c)
    ensures d < 10
  {
    c as int - '0' as int
  }

  function Digit(d: nat): (c: char)
    requires d < 10
    ensures IsDigit(c) && DigitValue(c) == d
  {
    ('0' as int + d) as char
  }

  predicate AllDigits(s: string) {
    forall i | 0 <= i < |s| :: IsDigit(s[i])
  }

  predicate HasDigit(s: string) {
    exists i | 0 <= i < |s| :: IsDigit(s[i])
  }

  /** The value of a run of digits, accumulated from the left as `n * 10 + d`. */
  function DigitsValue(s: string): nat
    requires AllDigits(s)
    decreases |s|
  {
    if s == [] then 0 else DigitsValue(s[..|s| - 1]) * 10 + DigitValue(s[|s| - 1])
  }

  /** The decimal digits of a natural number, most significant first, without leading zeros. */
  function NatToDigits(n: nat): (s: string)
    ensures |s| > 0 && AllDigits(s)
    decreases n
  {
    if n < 10 then [Digit(n)] else NatToDigits(n / 10) + [Digit(n % 10)]
  }

  lemma {:induction false} DigitsRoundTrip(n: nat)
    ensures DigitsValue(NatToDigits(n)) == n
  {
    if n >= 10 {
      var s := NatToDigits(n);
      assert s[..|s| - 1] == NatToDigits(n / 10);
      DigitsRoundTrip(n / 10);
    }
  }

  /** `int.ToString()`: a minus sign for negative numbers, then the digits. */
  function IntToString(n: int): (s: string)
    ensures |s| > 0
  {
    if n < 0 then "-" + NatToDigits(-n) else NatToDigits(n)
  }

  /** `int.TryParse`: an optional sign followed by one or more ASCII digits. */
  function TryParseInt(s: string): Option<int> {
    if |s| > 0 && AllDigits(s) then Some(DigitsValue(s))
    else if |s| > 1 && s[0] == '-' && AllDigits(s[1..]) then Some(0 - DigitsValue(s[1..]) as int)
    else if |s| > 1 && s[0] == '+' && AllDigits(s[1..]) then Some(DigitsValue(s[1..]))
    else None
  }

  /** Every number the shell prints or stores is read back as the same number. */
  lemma ParseFormatRoundTrip(n: int)
    ensures TryParseInt(IntToString(n)) == Some(n)
  {
    if n < 0 {
      var s := IntToString(n);
      assert s[1..] == NatToDigits(-n);
      assert !IsDigit(s[0]);
      DigitsRoundTrip(-n);
    } else {
      DigitsRoundTrip(n);
    }
  }

  /** `String.Join(sep, parts)`. */
  function Join(parts: seq<string>, sep: string): string
    decreases |parts|
  {
    if |parts| == 0 then ""
    else if |parts| == 1 then parts[0]
    else parts[0] + sep + Join(parts[1..], sep)
  }

  /**
   * `String.Split(sep)`: the pieces between separators, empty pieces included;
   * splitting then joining with the same separator gives the input back.
   */
  function Split(s: string, sep: char): (parts: seq<string>)
    ensures |parts| > 0
    ensures forall i | 0 <= i < |parts| :: sep !in parts[i]
    ensures Join(parts, [sep]) == s
    decreases |s|
  {
    if s == [] then [""]
    else
      var rest := Split(s[1..], sep);
      if s[0] == sep then
        assert ([""] + rest)[1..] == rest;
        [""] + rest
      else
        var parts := [[s[0]] + rest[0]] + rest[1..];
        assert parts[1..] == rest[1..];
        assert s == [s[0]] + s[1..];
        parts
  }

  /** Joining pieces that contain no separator and splitting again gives the pieces back. */
  lemma {:induction false} SplitJoin(parts: seq<string>, sep: char)
    requires |parts| > 0
    requires forall i | 0 <= i < |parts| :: sep !in parts[i]
    ensures Split(Join(parts, [sep]), sep) == parts
    decreases |parts|, |parts[0]|
  {
    var s := Join(parts, [sep]);
    if |parts| == 1 {
      if parts[0] != [] {
        var p := parts[0];
        assert s[1..] == p[1..];
        SplitJoin([p[1..]], sep);
        assert [p[0]] + p[1..] == p;
      }
    } else if parts[0] == [] {
      assert s == [sep] + Join(parts[1..], [sep]);
      assert s[1..] == Join(parts[1..], [sep]);
      SplitJoin(parts[1..], sep);
      assert [""] + parts[1..] == parts;
    } else {
      var p := parts[0];
      var tail := [p[1..]] + parts[1..];
      assert tail[1..] == parts[1..];
      assert s[1..] == Join(tail, [sep]);
      SplitJoin(tail, sep);
      assert [p[0]] + p[1..] == p;
      assert [[p[0]] + p[1..]] + parts[1..] == [p] + parts[1..] == parts;
    }
  }

  /** `String.Split()` with no arguments: split at every white-space character, empty pieces included. */
  function SplitWhiteSpace(s: string): (parts: seq<string>)
    ensures |parts| > 0
    ensures forall i, j | 0 <= i < |parts| && 0 <= j < |parts[i]| :: !IsWhiteSpace(parts[i][j])
    decreases |s|
  {
    if s == [] then [""]
    else
      var rest := SplitWhiteSpace(s[1..]);
      if IsWhiteSpace(s[0]) then [""] + rest else [[s[0]] + rest[0]] + rest[1..]
  }

  predicate OccursAt(s: string, pattern: string, k: nat) {
    k + |pattern| <= |s| && s[k..k + |pattern|] == pattern
  }

  /** `s.IndexOf(pattern)`: the first position where `pattern` occurs, if any. */
  function IndexOf(s: string, pattern: string): (r: Option<nat>)
    ensures r.Some? ==> OccursAt(s, pattern, r.value)
    ensures forall k: nat | k < (if r.Some? then r.value else |s| + 1) :: !OccursAt(s, pattern, k)
  {
    IndexFrom(s, pattern, 0)
  }

  function IndexFrom(s: string, pattern: string, i: nat): (r: Option<nat>)
    requires forall k: nat | k < i :: !OccursAt(s, pattern, k)
    ensures r.Some? ==> OccursAt(s, pattern, r.value)
    ensures forall k: nat | k < (if r.Some? then r.value else |s| + 1) :: !OccursAt(s, pattern, k)
    decreases |s| + 1 - i
  {
    if i + |pattern| > |s| then None
    else if s[i..i + |pattern|] == pattern then Some(i)
    else IndexFrom(s, pattern, i + 1)
  }

  predicate Contains(s: string, pattern: string) {
    IndexOf(s, pattern).Some?
  }

  /** `s.EndsWith(suffix)`. */
  predicate EndsWith(s: string, suffix: string) {
    |suffix| <= |s| && s[|s| - |suffix|..] == suffix
  }

  /** The last index whose character satisfies `p`, or -1 (`LastIndexOf`, `LastIndexOfAny`). */
  function LastIndexWhere(s: string, p: char -> bool): (r: int)
    ensures -1 <= r < |s|
    ensures r >= 0 ==> p(s[r])
    ensures forall k | r < k < |s| :: !p(s[k])
    decreases |s|
  {
    if s == [] then -1
    else if p(s[|s| - 1]) then |s| - 1
    else LastIndexWhere(s[..|s| - 1], p)
  }

  /** `s.Replace(pattern, replacement)`: every occurrence, scanning left to right without overlap. */
  function ReplaceAll(s: string, pattern: string, replacement: string): string
    requires |pattern| > 0
    decreases |s|
  {
    if |s| < |pattern| then s
    else if s[..|pattern|] == pattern then replacement + ReplaceAll(s[|pattern|..], pattern, replacement)
    else [s[0]] + ReplaceAll(s[1..], pattern, replacement)
  }

  /** Replacing a pattern that does not occur changes nothing. */
  lemma {:induction false} ReplaceAbsent(s: string, pattern: string, replacement: string)
    requires |pattern| > 0
    requires IndexOf(s, pattern).None?
    ensures ReplaceAll(s, pattern, replacement) == s
    decreases |s|
  {
    if |s| >= |pattern| {
      assert !OccursAt(s, pattern, 0);
      forall k: nat | k < |s[1..]| + 1 ensures !OccursAt(s[1..], pattern, k) {
        assert !OccursAt(s, pattern, k + 1);
        if k + |pattern| <= |s[1..]| {
          assert s[1..][k..k + |pattern|] == s[k + 1..k + 1 + |pattern|];
        }
      }
      ReplaceAbsent(s[1..], pattern, replacement);
    }
  }

  /** A pattern whose first character is missing from `s` does not occur in it. */
  lemma AbsentLead(s: string, pattern: string)
    requires |pattern| > 0 && pattern[0] !in s
    ensures IndexOf(s, pattern).None?
  {
    forall k: nat ensures !OccursAt(s, pattern, k) {
      if k + |pattern| <= |s| {
        assert s[k..k + |pattern|][0] == s[k];
      }
    }
  }

  /** Text in front that cannot start the pattern is copied unchanged. */
  lemma {:induction false} ReplaceAfterPlain(pre: string, rest: string, pattern: string, replacement: string)
    requires |pattern| > 0 && pattern[0] !in pre
    ensures ReplaceAll(pre + rest, pattern, replacement) == pre + ReplaceAll(rest, pattern, replacement)
    decreases |pre|
  {
    if pre == [] {
      assert pre + rest == rest;
    } else {
      var s := pre + rest;
      if |s| >= |pattern| {
        assert s[..|pattern|] != pattern by { assert s[..|pattern|][0] == pre[0]; }
        assert ReplaceAll(s, pattern, replacement) == [s[0]] + ReplaceAll(s[1..], pattern, replacement);
        assert s[1..] == pre[1..] + rest;
        ReplaceAfterPlain(pre[1..], rest, pattern, replacement);
        var tail := ReplaceAll(rest, pattern, replacement);
        assert [pre[0]] + (pre[1..] + tail) == pre + tail;
      } else {
        assert ReplaceAll(rest, pattern, replacement) == rest;
      }
    }
  }

  /** Replacing a pattern by itself gives back the text. */
  lemma {:induction false} ReplaceSelf(s: string, pattern: string)
    requires |pattern| > 0
    ensures ReplaceAll(s, pattern, pattern) == s
    decreases |s|
  {
    if |s| >= |pattern| {
      if s[..|pattern|] == pattern {
        ReplaceSelf(s[|pattern|..], pattern);
        assert s == pattern + s[|pattern|..];
      } else {
        ReplaceSelf(s[1..], pattern);
        assert s == [s[0]] + s[1..];
      }
    }
  }

  /** Replacement substitutes every occurrence: the pattern followed by more text. */
  lemma ReplaceAtFront(pattern: string, replacement: string, rest: string)
    requires |pattern| > 0
    ensures ReplaceAll(pattern + rest, pattern, replacement) == replacement + ReplaceAll(rest, pattern, replacement)
  {
    assert (pattern + rest)[..|pattern|] == pattern;
    assert (pattern + rest)[|pattern|..] == rest;
  }
}
