/**
 * The JavaScript string primitives the rule-file parser relies on:
 * `String.prototype.split("\n")`, `String.prototype.trim()` and the
 * character classes they and the regular expression `.` use.
 * Strings are sequences of characters; UTF-16 code units are not modelled.
 */
module Text {

  /** ECMAScript WhiteSpace and LineTerminator code points: what `trim()` removes. */
  predicate IsWhitespace(c: char) {
    || c == '\t' || c == '\n' || c == '\U{000B}' || c == '\U{000C}' || c == '\r' || c == ' '
    || c == '\U{00A0}' || c == '\U{1680}' || ('\U{2000}' <= c <= '\U{200A}')
    || c == '\U{2028}' || c == '\U{2029}' || c == '\U{202F}' || c == '\U{205F}'
    || c == '\U{3000}' || c == '\U{FEFF}'
  }

  /** ECMAScript LineTerminator code points: those the regular expression `.` does not match. */
  predicate IsLineTerminator(c: char) {
    c == '\n' || c == '\r' || c == '\U{2028}' || c == '\U{2029}'
  }

  /** `s.split(sep)` for a one-character separator, scanning with the pending piece `current`. */
  function SplitOn(s: string, sep: char, current: string): (pieces: seq<string>)
    ensures |pieces| >= 1
    decreases |s|
  {
    if s == [] then [current]
    else if s[0] == sep then [current] + SplitOn(s[1..], sep, [])
    else SplitOn(s[1..], sep, current + [s[0]])
  }

  /** `s.split("\n")`: the lines of a text, terminators removed. */
  function SplitLines(s: string): (lines: seq<string>)
    ensures |lines| >= 1
  {
    SplitOn(s, '\n', [])
  }

  /** `pieces.join([sep])`. */
  function Join(pieces: seq<string>, sep: char): string
    decreases |pieces|
  {
    if pieces == [] then []
    else if |pieces| == 1 then pieces[0]
    else pieces[0] + [sep] + Join(pieces[1..], sep)
  }

  /** The pieces `SplitOn` produces never contain the separator, and joining them gives back the text. */
  lemma {:induction false} SplitOnJoin(s: string, sep: char, current: string)
    requires sep !in current
    ensures forall i :: 0 <= i < |SplitOn(s, sep, current)| ==> sep !in SplitOn(s, sep, current)[i]
    ensures Join(SplitOn(s, sep, current), sep) == current + s
    decreases |s|
  {
    if s == [] {
    } else if s[0] == sep {
      SplitOnJoin(s[1..], sep, []);
      assert current + s == current + [sep] + s[1..];
    } else {
      SplitOnJoin(s[1..], sep, current + [s[0]]);
      assert current + s == current + [s[0]] + s[1..];
    }
  }

  /** `split("\n")` is undone by `join("\n")`, and no line holds a line feed. */
  lemma SplitLinesJoin(s: string)
    ensures forall i :: 0 <= i < |SplitLines(s)| ==> '\n' !in SplitLines(s)[i]
    ensures Join(SplitLines(s), '\n') == s
  {
    SplitOnJoin(s, '\n', []);
  }

  /** Splitting a text that has a separator in the middle splits each half. */
  lemma {:induction false} SplitOnAppend(a: string, b: string, sep: char, current: string)
    ensures SplitOn(a + [sep] + b, sep, current) == SplitOn(a, sep, current) + SplitOn(b, sep, [])
    decreases |a|
  {
    if a == [] {
      assert a + [sep] + b == [sep] + b;
    } else {
      assert (a + [sep] + b)[1..] == a[1..] + [sep] + b;
      SplitOnAppend(a[1..], b, sep, if a[0] == sep then [] else current + [a[0]]);
    }
  }

  /** The lines of `a + "\n" + b` are the lines of `a` followed by the lines of `b`. */
  lemma SplitLinesAppend(a: string, b: string)
    ensures SplitLines(a + "\n" + b) == SplitLines(a) + SplitLines(b)
  {
    SplitOnAppend(a, b, '\n', []);
  }

  /** The length of the whitespace run `trim()` removes at the start of `s`. */
  function LeadingWhitespace(s: string): (n: nat)
    ensures n <= |s|
    decreases |s|
  {
    if s != [] && IsWhitespace(s[0]) then 1 + LeadingWhitespace(s[1..]) else 0
  }

  /** Exactly the characters before `LeadingWhitespace(s)` are whitespace, up to the first one that is not. */
  lemma {:induction false} LeadingWhitespaceRun(s: string)
    ensures forall k :: 0 <= k < LeadingWhitespace(s) ==> IsWhitespace(s[k])
    ensures LeadingWhitespace(s) == |s| || !IsWhitespace(s[LeadingWhitespace(s)])
    decreases |s|
  {
    if s != [] && IsWhitespace(s[0]) {
      LeadingWhitespaceRun(s[1..]);
    }
  }

  /**
   * Where the whitespace run `trim()` removes at the end of `s` starts, not
   * looking before position `lo`.
   */
  function TrailingWhitespace(s: string, lo: nat): (n: nat)
    requires lo <= |s|
    ensures lo <= n <= |s|
    decreases |s|
  {
    if |s| > lo && IsWhitespace(s[|s| - 1]) then TrailingWhitespace(s[..|s| - 1], lo) else |s|
  }

  /** Exactly the characters from `TrailingWhitespace(s, lo)` on are whitespace, back to `lo` or the last one that is not. */
  lemma {:induction false} TrailingWhitespaceRun(s: string, lo: nat)
    requires lo <= |s|
    ensures forall k :: TrailingWhitespace(s, lo) <= k < |s| ==> IsWhitespace(s[k])
    ensures TrailingWhitespace(s, lo) == lo || !IsWhitespace(s[TrailingWhitespace(s, lo) - 1])
    decreases |s|
  {
    if |s| > lo && IsWhitespace(s[|s| - 1]) {
      TrailingWhitespaceRun(s[..|s| - 1], lo);
    }
  }

  /**
   * `s.trim()`: the part of `s` between its leading and its trailing
   * whitespace.
   */
  function Trim(s: string): (r: string)
    ensures |r| <= |s|
    ensures r == [] || (!IsWhitespace(r[0]) && !IsWhitespace(r[|r| - 1]))
  {
    var i := LeadingWhitespace(s);
    LeadingWhitespaceRun(s);
    TrailingWhitespaceRun(s, i);
    s[i..TrailingWhitespace(s, i)]
  }

  /** What `trim()` keeps is a slice of `s`, and everything it drops around that slice is whitespace. */
  lemma TrimIsSlice(s: string)
    ensures exists i :: TrimmedAt(s, Trim(s), i)
  {
    var i := LeadingWhitespace(s);
    LeadingWhitespaceRun(s);
    TrailingWhitespaceRun(s, i);
    assert TrimmedAt(s, Trim(s), i);
  }

  /** `r` is the slice of `s` starting at `i`, and everything of `s` around it is whitespace. */
  predicate TrimmedAt(s: string, r: string, i: int) {
    && 0 <= i <= |s| - |r|
    && r == s[i..i + |r|]
    && (forall k :: 0 <= k < i ==> IsWhitespace(s[k]))
    && (forall k :: i + |r| <= k < |s| ==> IsWhitespace(s[k]))
  }

  /** A text that neither starts nor ends with whitespace is left as it is by `trim()`. */
  lemma TrimUnchanged(s: string)
    requires s == [] || (!IsWhitespace(s[0]) && !IsWhitespace(s[|s| - 1]))
    ensures Trim(s) == s
  {
    if s != [] {
      assert LeadingWhitespace(s) == 0;
      assert s[..|s|] == s;
    }
  }

  /** `trim()` empties a text made only of whitespace. */
  lemma {:induction false} LeadingWhitespaceAll(s: string)
    requires forall k :: 0 <= k < |s| ==> IsWhitespace(s[k])
    ensures LeadingWhitespace(s) == |s| && Trim(s) == []
    decreases |s|
  {
    if s != [] {
      LeadingWhitespaceAll(s[1..]);
    }
  }
}
