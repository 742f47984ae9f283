/**
 * The rule-file parser of package-ignore: `parseIgnorePatterns`,
 * `splitByUnescapedDot` and `unescapeKey` (bin/index.cjs).
 *
 * Rule text is split into lines; each line loses its comment (from the
 * first `#` not escaped by a backslash) and its surrounding whitespace;
 * empty lines are dropped. A line that is exactly `*` only sets the
 * exclude-all flag; a line starting with `!` becomes an allow path, any
 * other line an ignore path. A path is the line split at unescaped dots,
 * each segment with its `\X` escapes resolved.
 */
module Patterns {
  import opened Wrappers
  import opened Text
  import opened Document

  /** What `parseIgnorePatterns` returns: `[blacklist, whitelist, excludeAll]`. */
  datatype Rules = Rules(ignore: seq<Path>, allow: seq<Path>, excludeAll: bool)

  /** The rule text used when no `.package-ignore` file is found. */
  const DefaultRuleText: string := "devDependencies"

  /** The rule text of a run: the file's contents when one was found, the default otherwise. */
  function RuleText(found: Option<string>): string {
    found.GetOr(DefaultRuleText)
  }

  // ---------------------------------------------------------------------
  // Escape state
  // ---------------------------------------------------------------------

  /**
   * The `escaped` flag of the source's scans just before `s[i]`: a backslash
   * toggles it, any other character clears it.
   */
  function Escaped(s: string, i: nat): bool
    requires i <= |s|
  {
    if i == 0 then false
    else if s[i - 1] == '\\' then !Escaped(s, i - 1)
    else false
  }

  /** The number of backslashes immediately before `s[i]`. */
  function BackslashRun(s: string, i: nat): (n: nat)
    requires i <= |s|
    ensures n <= i
  {
    if i == 0 || s[i - 1] != '\\' then 0 else 1 + BackslashRun(s, i - 1)
  }

  /** A character is escaped exactly when an odd number of backslashes precede it. */
  lemma {:induction false} EscapedIffOddRun(s: string, i: nat)
    requires i <= |s|
    ensures Escaped(s, i) <==> BackslashRun(s, i) % 2 == 1
  {
    if i > 0 && s[i - 1] == '\\' {
      EscapedIffOddRun(s, i - 1);
    }
  }

  // ---------------------------------------------------------------------
  // Comment stripping (bin/index.cjs:126-143)
  // ---------------------------------------------------------------------

  /**
   * Where the scan that starts at `i` with flag `escaped` stops: at the
   * first `#` met while not escaped, or at the end of the line.
   */
  function CommentStart(line: string, i: nat, escaped: bool): (e: nat)
    requires i <= |line|
    ensures i <= e <= |line|
    decreases |line| - i
  {
    if i == |line| then i
    else if line[i] == '\\' then CommentStart(line, i + 1, !escaped)
    else if line[i] == '#' && !escaped then i
    else CommentStart(line, i + 1, false)
  }

  /** A line with its comment removed. */
  function CommentStripped(line: string): string {
    line[..CommentStart(line, 0, false)]
  }

  /** The comment-removing loop of `parseIgnorePatterns`. */
  method StripComment(line: string) returns (result: string)
    ensures result == CommentStripped(line)
  {
    result := "";
    var escaped := false;
    var i := 0;
    while i < |line|
      invariant i <= |line|
      invariant result == line[..i]
      invariant CommentStart(line, i, escaped) == CommentStart(line, 0, false)
    {
      var c := line[i];
      if c == '\\' {
        escaped := !escaped;
        result := result + [c];
      } else if c == '#' && !escaped {
        break;
      } else {
        result := result + [c];
        escaped := false;
      }
      i := i + 1;
    }
  }

  /** From position `i` on, the scan stops at the first unescaped `#`. */
  lemma {:induction false} CommentStartFirstUnescapedHash(line: string, i: nat)
    requires i <= |line|
    ensures var e := CommentStart(line, i, Escaped(line, i));
      && (e < |line| ==> line[e] == '#' && !Escaped(line, e))
      && forall j :: i <= j < e && line[j] == '#' ==> Escaped(line, j)
    decreases |line| - i
  {
    if i < |line| && !(line[i] == '#' && !Escaped(line, i)) {
      CommentStartFirstUnescapedHash(line, i + 1);
    }
  }

  /**
   * Comment stripping keeps a prefix of the line, backslashes included, and
   * ends just before the first `#` preceded by an even number (possibly zero)
   * of backslashes.
   */
  lemma CommentStrippedIsPrefix(line: string)
    ensures var r := CommentStripped(line);
      && r <= line
      && (|r| < |line| ==> line[|r|] == '#' && BackslashRun(line, |r|) % 2 == 0)
      && forall j :: 0 <= j < |r| && line[j] == '#' ==> BackslashRun(line, j) % 2 == 1
  {
    var e := CommentStart(line, 0, false);
    CommentStartFirstUnescapedHash(line, 0);
    if e < |line| {
      EscapedIffOddRun(line, e);
    }
    forall j | 0 <= j < e && line[j] == '#'
      ensures BackslashRun(line, j) % 2 == 1
    {
      EscapedIffOddRun(line, j);
    }
  }

  // ---------------------------------------------------------------------
  // Key unescaping (bin/index.cjs:204-206)
  // ---------------------------------------------------------------------

  /**
   * `key.replace(/\\(.)/g, '$1')`: scanning left to right, every backslash
   * followed by a character other than a line terminator is dropped and that
   * character kept; the pair is then skipped.
   */
  function Unescape(key: string): (r: string)
    ensures |r| <= |key|
    ensures NonBackslash(r) == NonBackslash(key)
    decreases |key|
  {
    if |key| >= 2 && key[0] == '\\' && !IsLineTerminator(key[1]) then
      var rest := Unescape(key[2..]);
      assert key[1..][1..] == key[2..];
      assert ([key[1]] + rest)[1..] == rest;
      [key[1]] + rest
    else if key == [] then []
    else
      var rest := Unescape(key[1..]);
      assert ([key[0]] + rest)[1..] == rest;
      [key[0]] + rest
  }

  /** Somewhere in `key` a backslash is followed by a character the regular expression `.` matches. */
  predicate HasEscapePair(key: string) {
    exists i :: 0 <= i < |key| - 1 && key[i] == '\\' && !IsLineTerminator(key[i + 1])
  }

  /** The characters of `s` other than backslashes: what unescaping never removes. */
  function NonBackslash(s: string): string {
    if s == [] then []
    else (if s[0] == '\\' then [] else [s[0]]) + NonBackslash(s[1..])
  }

  /** A key is left unchanged by unescaping exactly when it holds no escape pair. */
  lemma {:induction false} UnescapeIdentityIff(key: string)
    ensures Unescape(key) == key <==> !HasEscapePair(key)
    decreases |key|
  {
    if |key| >= 2 && key[0] == '\\' && !IsLineTerminator(key[1]) {
      assert |Unescape(key)| < |key|;
    } else if key != [] {
      UnescapeIdentityIff(key[1..]);
      if HasEscapePair(key) {
        var i :| 0 <= i < |key| - 1 && key[i] == '\\' && !IsLineTerminator(key[i + 1]);
        assert i > 0;
        assert key[1..][i - 1] == '\\' && !IsLineTerminator(key[1..][i]);
      } else {
        forall i | 0 <= i < |key[1..]| - 1
          ensures !(key[1..][i] == '\\' && !IsLineTerminator(key[1..][i + 1]))
        {
          assert key[1..][i] == key[i + 1] && key[1..][i + 1] == key[i + 2];
        }
      }
    }
  }

  /** The key escaping a rule author writes: a backslash before every `\` and `.`. */
  function Escape(key: string): string {
    if key == [] then []
    else (if key[0] == '\\' || key[0] == '.' then ['\\', key[0]] else [key[0]]) + Escape(key[1..])
  }

  /** Unescaping undoes escaping. */
  lemma {:induction false} UnescapeEscape(key: string)
    ensures Unescape(Escape(key)) == key
  {
    if key != [] {
      UnescapeEscape(key[1..]);
      var e := Escape(key);
      if key[0] == '\\' || key[0] == '.' {
        assert e[2..] == Escape(key[1..]);
      } else {
        assert e[1..] == Escape(key[1..]);
      }
    }
  }

  // ---------------------------------------------------------------------
  // Splitting at unescaped dots (bin/index.cjs:175-199)
  // ---------------------------------------------------------------------

  /**
   * The segments the scan of `splitByUnescapedDot` still produces from `s`,
   * with escape flag `escaped` and pending segment text `current`.
   */
  function SplitFrom(s: string, escaped: bool, current: string): Path
    decreases |s|
  {
    if s == [] then (if |current| > 0 then [Unescape(current)] else [])
    else if s[0] == '\\' then SplitFrom(s[1..], !escaped, current + [s[0]])
    else if s[0] == '.' && !escaped then [Unescape(current)] + SplitFrom(s[1..], escaped, [])
    else SplitFrom(s[1..], false, current + [s[0]])
  }

  /** The path of a pattern: its segments between unescaped dots, unescaped. */
  function SplitPath(s: string): Path {
    SplitFrom(s, false, [])
  }

  /** `splitByUnescapedDot`. */
  method SplitByUnescapedDot(s: string) returns (result: Path)
    ensures result == SplitPath(s)
  {
    result := [];
    var current := "";
    var escaped := false;
    var i := 0;
    while i < |s|
      invariant i <= |s|
      invariant result + SplitFrom(s[i..], escaped, current) == SplitPath(s)
    {
      assert s[i..][1..] == s[i + 1..];
      var c := s[i];
      if c == '\\' {
        escaped := !escaped;
        current := current + [c];
      } else if c == '.' && !escaped {
        result := result + [Unescape(current)];
        current := "";
      } else {
        current := current + [c];
        escaped := false;
      }
      i := i + 1;
    }
    if |current| > 0 {
      result := result + [Unescape(current)];
    }
  }

  /** The number of dots in `s[i..]` that the scan treats as separators. */
  function UnescapedDots(s: string, i: nat): nat
    requires i <= |s|
    decreases |s| - i
  {
    if i == |s| then 0
    else (if s[i] == '.' && !Escaped(s, i) then 1 else 0) + UnescapedDots(s, i + 1)
  }

  /** The dot at `s[j]` separates segments: it is not escaped. */
  predicate IsSeparator(s: string, j: nat)
    requires j < |s|
  {
    s[j] == '.' && !Escaped(s, j)
  }

  /** From position `i` on, the scan yields one segment per unescaped dot, plus a final one for non-empty trailing text. */
  lemma {:induction false} SplitFromCount(s: string, i: nat, current: string)
    requires i <= |s|
    ensures |SplitFrom(s[i..], Escaped(s, i), current)|
      == UnescapedDots(s, i) + (if (i == |s| && |current| > 0) || (i < |s| && !IsSeparator(s, |s| - 1)) then 1 else 0)
    decreases |s| - i
  {
    if i < |s| {
      assert s[i..][1..] == s[i + 1..];
      if IsSeparator(s, i) {
        SplitFromCount(s, i + 1, []);
      } else {
        SplitFromCount(s, i + 1, current + [s[i]]);
      }
    }
  }

  /**
   * `splitByUnescapedDot` yields one segment per unescaped dot, and one more
   * exactly when the text after the last unescaped dot is non-empty; so the
   * empty pattern has no segment at all.
   */
  lemma SplitPathCount(s: string)
    ensures |SplitPath(s)| == UnescapedDots(s, 0) + (if s != [] && !IsSeparator(s, |s| - 1) then 1 else 0)
  {
    SplitFromCount(s, 0, []);
  }

  /** Escaping never empties a key. */
  lemma EscapeEmpty(key: string)
    ensures Escape(key) == [] <==> key == []
  {
  }

  /** The text of an escaped key is taken into the pending segment whole: none of its dots separates. */
  lemma {:induction false} SplitFromEscaped(key: string, rest: string, current: string)
    ensures SplitFrom(Escape(key) + rest, false, current) == SplitFrom(rest, false, current + Escape(key))
    decreases |key|
  {
    if key != [] {
      var tail := Escape(key[1..]) + rest;
      var c := current + Escape(key[..1]);
      assert Escape(key) == Escape(key[..1]) + Escape(key[1..]);
      calc {
        SplitFrom(Escape(key) + rest, false, current);
        { assert Escape(key) + rest == Escape(key[..1]) + tail; }
        SplitFrom(Escape(key[..1]) + tail, false, current);
        { SplitFromEscapedChar(key[0], tail, current); }
        SplitFrom(tail, false, c);
        { SplitFromEscaped(key[1..], rest, c); }
        SplitFrom(rest, false, c + Escape(key[1..]));
        { assert c + Escape(key[1..]) == current + Escape(key); }
        SplitFrom(rest, false, current + Escape(key));
      }
    } else {
      assert Escape(key) + rest == rest && current + Escape(key) == current;
    }
  }

  /** The escaped form of one character joins the pending segment. */
  lemma SplitFromEscapedChar(ch: char, tail: string, current: string)
    ensures SplitFrom(Escape([ch]) + tail, false, current) == SplitFrom(tail, false, current + Escape([ch]))
  {
    if ch == '\\' || ch == '.' {
      assert Escape([ch]) == ['\\', ch];
      assert (['\\', ch] + tail)[1..] == [ch] + tail;
      assert ([ch] + tail)[1..] == tail;
      assert SplitFrom(['\\', ch] + tail, false, current) == SplitFrom([ch] + tail, true, current + ['\\']);
      assert current + ['\\'] + [ch] == current + ['\\', ch];
    } else {
      assert Escape([ch]) == [ch];
      assert ([ch] + tail)[1..] == tail;
    }
  }

  /** The pattern text that names a path: its keys escaped and joined with dots. */
  function JoinPath(keys: Path): string {
    Join(EscapeAll(keys), '.')
  }

  /** Every key escaped. */
  function EscapeAll(keys: Path): (escaped: seq<string>)
    ensures |escaped| == |keys|
  {
    if keys == [] then [] else [Escape(keys[0])] + EscapeAll(keys[1..])
  }

  /**
   * Splitting the joined, escaped keys gives back the keys, provided the last
   * key is not empty (an empty trailing segment is never produced).
   */
  lemma {:induction false} SplitJoinPath(keys: Path)
    requires keys == [] || keys[|keys| - 1] != []
    ensures SplitPath(JoinPath(keys)) == keys
    decreases |keys|
  {
    if |keys| == 1 {
      var e := Escape(keys[0]);
      assert JoinPath(keys) == e + [];
      calc {
        SplitPath(JoinPath(keys));
        SplitFrom(e + [], false, []);
        { SplitFromEscaped(keys[0], [], []); assert [] + e == e; }
        SplitFrom([], false, e);
        { EscapeEmpty(keys[0]); }
        [Unescape(e)];
        { UnescapeEscape(keys[0]); }
        keys;
      }
    } else if |keys| > 1 {
      var e := Escape(keys[0]);
      var rest := JoinPath(keys[1..]);
      assert EscapeAll(keys)[1..] == EscapeAll(keys[1..]);
      assert JoinPath(keys) == e + (['.'] + rest);
      calc {
        SplitPath(JoinPath(keys));
        SplitFrom(e + (['.'] + rest), false, []);
        { SplitFromEscaped(keys[0], ['.'] + rest, []); assert [] + e == e; }
        SplitFrom(['.'] + rest, false, e);
        { assert (['.'] + rest)[1..] == rest; }
        [Unescape(e)] + SplitFrom(rest, false, []);
        { UnescapeEscape(keys[0]); SplitJoinPath(keys[1..]); }
        [keys[0]] + keys[1..];
        keys;
      }
    }
  }

  // ---------------------------------------------------------------------
  // Parsing (bin/index.cjs:123-170)
  // ---------------------------------------------------------------------

  /** A raw line after comment removal and `trim()`. */
  function CleanLine(raw: string): string {
    Trim(CommentStripped(raw))
  }

  /** The lines that are not empty, in order: `.filter(line => line.length > 0)`. */
  function NonEmpty(lines: seq<string>): (kept: seq<string>)
    ensures forall i :: 0 <= i < |kept| ==> |kept[i]| > 0
  {
    if lines == [] then []
    else (if |lines[0]| > 0 then [lines[0]] else []) + NonEmpty(lines[1..])
  }

  /** The raw lines cleaned, the empty ones dropped, in order. */
  function CleanLines(raws: seq<string>): seq<string> {
    NonEmpty(seq(|raws|, i requires 0 <= i < |raws| => CleanLine(raws[i])))
  }

  /** `line.startsWith('!')`. */
  predicate IsAllowLine(line: string) {
    |line| > 0 && line[0] == '!'
  }

  /** The ignore paths of the surviving lines: every line that is neither `*` nor an allow line. */
  function IgnorePaths(lines: seq<string>): seq<Path> {
    if lines == [] then []
    else
      (if lines[0] == "*" || IsAllowLine(lines[0]) then [] else [SplitPath(lines[0])])
      + IgnorePaths(lines[1..])
  }

  /** The allow paths of the surviving lines: every allow line, its `!` removed. */
  function AllowPaths(lines: seq<string>): seq<Path> {
    if lines == [] then []
    else
      (if lines[0] != "*" && IsAllowLine(lines[0]) then [SplitPath(lines[0][1..])] else [])
      + AllowPaths(lines[1..])
  }

  /** The meaning of a rule text. */
  function Parse(text: string): Rules {
    var lines := CleanLines(SplitLines(text));
    Rules(IgnorePaths(lines), AllowPaths(lines), "*" in lines)
  }

  /** `parseIgnorePatterns`: clean the lines, test for `*`, then classify. */
  method ParseIgnorePatterns(text: string) returns (rules: Rules)
    ensures rules == Parse(text)
  {
    var lines := CleanRuleLines(SplitLines(text));
    var excludeAll := "*" in lines;
    var ignore, allow := ClassifyLines(lines);
    rules := Rules(ignore, allow, excludeAll);
  }

  /** The `.map(...)` (comment removal), `.map(trim)` and `.filter(non-empty)` chain of `parseIgnorePatterns`. */
  method CleanRuleLines(raws: seq<string>) returns (lines: seq<string>)
    ensures lines == CleanLines(raws)
  {
    var stripped := StripComments(raws);
    var trimmed := TrimLines(stripped);
    assert trimmed == seq(|raws|, i requires 0 <= i < |raws| => CleanLine(raws[i]));
    lines := KeepNonEmpty(trimmed);
  }

  /** `.map(line => ...)`: every line with its comment removed. */
  method StripComments(raws: seq<string>) returns (stripped: seq<string>)
    ensures |stripped| == |raws|
    ensures forall k :: 0 <= k < |raws| ==> stripped[k] == CommentStripped(raws[k])
  {
    stripped := [];
    while |stripped| < |raws|
      invariant |stripped| <= |raws|
      invariant forall k :: 0 <= k < |stripped| ==> stripped[k] == CommentStripped(raws[k])
    {
      var line := StripComment(raws[|stripped|]);
      stripped := stripped + [line];
    }
  }

  /** `.map(line => line.trim())`. */
  method TrimLines(lines: seq<string>) returns (trimmed: seq<string>)
    ensures |trimmed| == |lines|
    ensures forall k :: 0 <= k < |lines| ==> trimmed[k] == Trim(lines[k])
  {
    trimmed := [];
    while |trimmed| < |lines|
      invariant |trimmed| <= |lines|
      invariant forall k :: 0 <= k < |trimmed| ==> trimmed[k] == Trim(lines[k])
    {
      trimmed := trimmed + [Trim(lines[|trimmed|])];
    }
  }

  /** `.filter(line => line.length > 0)`. */
  method KeepNonEmpty(lines: seq<string>) returns (kept: seq<string>)
    ensures kept == NonEmpty(lines)
  {
    kept := [];
    var i := 0;
    while i < |lines|
      invariant i <= |lines|
      invariant kept + NonEmpty(lines[i..]) == NonEmpty(lines)
    {
      NonEmptyStep(lines, i);
      if |lines[i]| > 0 {
        kept := kept + [lines[i]];
      }
      i := i + 1;
    }
    assert lines[i..] == [];
  }

  lemma NonEmptyStep(lines: seq<string>, i: nat)
    requires i < |lines|
    ensures forall kept: seq<string> {:trigger kept + NonEmpty(lines[i..])} ::
      kept + NonEmpty(lines[i..])
      == (if |lines[i]| > 0 then kept + [lines[i]] else kept) + NonEmpty(lines[i + 1..])
  {
    assert lines[i..][1..] == lines[i + 1..];
  }

  /** The `.filter(line !== '*')` and `.forEach(...)` of `parseIgnorePatterns`, pushing each path onto its list. */
  method ClassifyLines(lines: seq<string>) returns (ignore: seq<Path>, allow: seq<Path>)
    ensures ignore == IgnorePaths(lines)
    ensures allow == AllowPaths(lines)
  {
    ignore, allow := [], [];
    var j := 0;
    while j < |lines|
      invariant j <= |lines|
      invariant ignore + IgnorePaths(lines[j..]) == IgnorePaths(lines)
      invariant allow + AllowPaths(lines[j..]) == AllowPaths(lines)
    {
      ClassifyStep(lines, j);
      var line := lines[j];
      if line != "*" {
        if |line| > 0 && line[0] == '!' {
          var keys := SplitByUnescapedDot(line[1..]);
          allow := allow + [keys];
        } else {
          var keys := SplitByUnescapedDot(line);
          ignore := ignore + [keys];
        }
      }
      j := j + 1;
    }
  }

  /** One step of the classifying loop: the line at `j` contributes its path, then the rest. */
  lemma ClassifyStep(lines: seq<string>, j: nat)
    requires j < |lines|
    ensures IgnorePaths(lines[j..])
      == (if lines[j] == "*" || IsAllowLine(lines[j]) then [] else [SplitPath(lines[j])]) + IgnorePaths(lines[j + 1..])
    ensures AllowPaths(lines[j..])
      == (if lines[j] != "*" && IsAllowLine(lines[j]) then [SplitPath(lines[j][1..])] else []) + AllowPaths(lines[j + 1..])
  {
    assert lines[j..][1..] == lines[j + 1..];
  }

  // ---------------------------------------------------------------------
  // Properties of the parser
  // ---------------------------------------------------------------------

  /** The empty rule set. */
  const NoRules := Rules([], [], false)

  /** The rules of two texts read one after the other: lists concatenated, flags or-ed. */
  function MergeRules(a: Rules, b: Rules): Rules {
    Rules(a.ignore + b.ignore, a.allow + b.allow, a.excludeAll || b.excludeAll)
  }

  /**
   * What one cleaned line means on its own: nothing if empty, the flag if
   * exactly `*`, an allow path if it starts with `!` (that one `!` dropped),
   * an ignore path otherwise.
   */
  function LineRules(line: string): Rules {
    if line == [] then NoRules
    else if line == "*" then Rules([], [], true)
    else if line[0] == '!' then Rules([], [SplitPath(line[1..])], false)
    else Rules([SplitPath(line)], [], false)
  }

  /** The line-by-line reading of a rule file: each raw line's rules, in order. */
  function RulesOfLines(raws: seq<string>): Rules {
    if raws == [] then NoRules
    else MergeRules(LineRules(CleanLine(raws[0])), RulesOfLines(raws[1..]))
  }

  lemma CleanLinesCons(raws: seq<string>)
    requires raws != []
    ensures CleanLines(raws)
      == (if |CleanLine(raws[0])| > 0 then [CleanLine(raws[0])] else []) + CleanLines(raws[1..])
  {
    var all := seq(|raws|, i requires 0 <= i < |raws| => CleanLine(raws[i]));
    var rest := seq(|raws| - 1, i requires 0 <= i < |raws| - 1 => CleanLine(raws[1..][i]));
    assert all[1..] == rest;
  }

  lemma {:induction false} IgnorePathsAppend(a: seq<string>, b: seq<string>)
    ensures IgnorePaths(a + b) == IgnorePaths(a) + IgnorePaths(b)
    ensures AllowPaths(a + b) == AllowPaths(a) + AllowPaths(b)
    decreases |a|
  {
    if a != [] {
      assert (a + b)[1..] == a[1..] + b;
      IgnorePathsAppend(a[1..], b);
    } else {
      assert a + b == b;
    }
  }

  /** Parsing a rule text is reading it line by line. */
  lemma {:induction false} ParseLineByLine(text: string)
    ensures Parse(text) == RulesOfLines(SplitLines(text))
  {
    RulesOfCleanLines(SplitLines(text));
  }

  lemma {:induction false} RulesOfCleanLines(raws: seq<string>)
    ensures var lines := CleanLines(raws);
      Rules(IgnorePaths(lines), AllowPaths(lines), "*" in lines) == RulesOfLines(raws)
    decreases |raws|
  {
    if raws != [] {
      CleanLinesCons(raws);
      RulesOfCleanLines(raws[1..]);
      var line := CleanLine(raws[0]);
      var head := if |line| > 0 then [line] else [];
      IgnorePathsAppend(head, CleanLines(raws[1..]));
    }
  }

  lemma MergeRulesAssociative(a: Rules, b: Rules, c: Rules)
    ensures MergeRules(a, MergeRules(b, c)) == MergeRules(MergeRules(a, b), c)
  {
    assert a.ignore + (b.ignore + c.ignore) == (a.ignore + b.ignore) + c.ignore;
    assert a.allow + (b.allow + c.allow) == (a.allow + b.allow) + c.allow;
  }

  /** Reading two blocks of lines one after the other merges their rules. */
  lemma {:induction false} RulesOfLinesAppend(a: seq<string>, b: seq<string>)
    ensures RulesOfLines(a + b) == MergeRules(RulesOfLines(a), RulesOfLines(b))
    decreases |a|
  {
    if a == [] {
      assert a + b == b;
    } else {
      assert (a + b)[1..] == a[1..] + b;
      var head := LineRules(CleanLine(a[0]));
      calc {
        RulesOfLines(a + b);
        MergeRules(head, RulesOfLines(a[1..] + b));
        { RulesOfLinesAppend(a[1..], b); }
        MergeRules(head, MergeRules(RulesOfLines(a[1..]), RulesOfLines(b)));
        { MergeRulesAssociative(head, RulesOfLines(a[1..]), RulesOfLines(b)); }
        MergeRules(MergeRules(head, RulesOfLines(a[1..])), RulesOfLines(b));
      }
    }
  }

  /**
   * Rules of a text keep line order with neither deduplication nor sorting:
   * parsing `a` and `b` joined by a newline concatenates their ignore lists
   * and their allow lists, and or-s their flags.
   */
  lemma ParseAppend(a: string, b: string)
    ensures Parse(a + "\n" + b) == MergeRules(Parse(a), Parse(b))
  {
    ParseLineByLine(a + "\n" + b);
    ParseLineByLine(a);
    ParseLineByLine(b);
    SplitLinesAppend(a, b);
    RulesOfLinesAppend(SplitLines(a), SplitLines(b));
  }

  lemma {:induction false} SplitOnNoSeparator(s: string, sep: char, current: string)
    requires sep !in s
    ensures SplitOn(s, sep, current) == [current + s]
    decreases |s|
  {
    if s == [] {
      assert current + s == current;
    } else {
      assert s[0] != sep && sep !in s[1..];
      SplitOnNoSeparator(s[1..], sep, current + [s[0]]);
      assert current + [s[0]] + s[1..] == current + s;
    }
  }

  /**
   * A single line is classified by its cleaned form: nothing if empty, only
   * the flag if exactly `*` (so `!*` is the allow path `["*"]`), an allow
   * path without its one `!` if it starts with `!`, an ignore path otherwise.
   */
  lemma ParseOneLine(raw: string)
    requires '\n' !in raw
    ensures Parse(raw) == LineRules(CleanLine(raw))
  {
    SplitOnNoSeparator(raw, '\n', []);
    assert [] + raw == raw;
    ParseLineByLine(raw);
  }

  lemma {:induction false} NonEmptyMember(lines: seq<string>, x: string)
    ensures x in NonEmpty(lines) <==> |x| > 0 && x in lines
    decreases |lines|
  {
    if lines != [] {
      NonEmptyMember(lines[1..], x);
      assert lines == [lines[0]] + lines[1..];
    }
  }

  /** The exclude-all flag is set exactly when some raw line cleans to `*`. */
  lemma ExcludeAllIff(text: string)
    ensures Parse(text).excludeAll
      <==> exists i :: 0 <= i < |SplitLines(text)| && CleanLine(SplitLines(text)[i]) == "*"
  {
    CleanLinesMember(SplitLines(text), "*");
  }

  /** A non-empty line survives cleaning exactly when some raw line cleans to it. */
  lemma CleanLinesMember(raws: seq<string>, x: string)
    requires |x| > 0
    ensures x in CleanLines(raws) <==> exists i :: 0 <= i < |raws| && CleanLine(raws[i]) == x
  {
    var all := seq(|raws|, i requires 0 <= i < |raws| => CleanLine(raws[i]));
    NonEmptyMember(all, x);
    if x in all {
      var i :| 0 <= i < |all| && all[i] == x;
      assert CleanLine(raws[i]) == x;
    }
    if exists i :: 0 <= i < |raws| && CleanLine(raws[i]) == x {
      var i :| 0 <= i < |raws| && CleanLine(raws[i]) == x;
      assert all[i] == x;
    }
  }

  lemma {:induction false} PathCountOfLines(lines: seq<string>)
    ensures |IgnorePaths(lines)| + |AllowPaths(lines)| + multiset(lines)["*"] == |lines|
    decreases |lines|
  {
    if lines != [] {
      PathCountOfLines(lines[1..]);
      assert lines == [lines[0]] + lines[1..];
    }
  }

  /**
   * Every surviving line other than `*` adds exactly one path: the two lists
   * together are as long as the cleaned lines without the `*` lines.
   */
  lemma PathCount(text: string)
    ensures var lines := CleanLines(SplitLines(text));
      |Parse(text).ignore| + |Parse(text).allow| == |lines| - multiset(lines)["*"]
  {
    PathCountOfLines(CleanLines(SplitLines(text)));
  }

  lemma {:induction false} CommentStartNoHash(line: string, i: nat, escaped: bool)
    requires i <= |line|
    requires forall j :: i <= j < |line| ==> line[j] != '#'
    ensures CommentStart(line, i, escaped) == |line|
    decreases |line| - i
  {
    if i < |line| {
      CommentStartNoHash(line, i + 1, if line[i] == '\\' then !escaped else false);
    }
  }

  /** A line without `#` has no comment. */
  lemma CommentStrippedNoHash(line: string)
    requires '#' !in line
    ensures CommentStripped(line) == line
  {
    CommentStartNoHash(line, 0, false);
    assert line[..|line|] == line;
  }

  /** A line without `#` and without surrounding whitespace is its own cleaned form. */
  lemma CleanLinePlain(line: string)
    requires '#' !in line
    requires line == [] || (!IsWhitespace(line[0]) && !IsWhitespace(line[|line| - 1]))
    ensures CleanLine(line) == line
  {
    CommentStrippedNoHash(line);
    TrimUnchanged(line);
  }

  /** A key with neither `\\` nor `.` needs no escaping. */
  lemma {:induction false} EscapePlain(key: string)
    requires '\\' !in key && '.' !in key
    ensures Escape(key) == key
  {
    if key != [] {
      EscapePlain(key[1..]);
      assert key == [key[0]] + key[1..];
    }
  }

  /** Splitting a plain dotted name: keys without `\\` or `.`, the last one non-empty. */
  lemma SplitPlain(keys: Path)
    requires forall i :: 0 <= i < |keys| ==> '\\' !in keys[i] && '.' !in keys[i]
    requires keys == [] || keys[|keys| - 1] != []
    ensures SplitPath(Join(keys, '.')) == keys
  {
    EscapeAllPlain(keys);
    SplitJoinPath(keys);
  }

  lemma {:induction false} EscapeAllPlain(keys: Path)
    requires forall i :: 0 <= i < |keys| ==> '\\' !in keys[i] && '.' !in keys[i]
    ensures EscapeAll(keys) == keys
    decreases |keys|
  {
    if keys != [] {
      EscapePlain(keys[0]);
      EscapeAllPlain(keys[1..]);
    }
  }

  /**
   * A dotted name of keys with no `\\`, `.`, `#` or line feed, the last
   * one non-empty, and no whitespace around the whole name.
   */
  predicate PlainName(keys: Path) {
    var name := Join(keys, '.');
    && keys != [] && keys[|keys| - 1] != []
    && (forall i :: 0 <= i < |keys| ==> '\\' !in keys[i] && '.' !in keys[i])
    && '#' !in name && '\n' !in name
    && name != [] && !IsWhitespace(name[0]) && !IsWhitespace(name[|name| - 1])
  }

  /** A line holding a plain dotted name that does not start with `!` (and is not `*`) ignores that path. */
  lemma PlainIgnoreLine(keys: Path)
    requires PlainName(keys)
    requires Join(keys, '.') != "*" && Join(keys, '.')[0] != '!'
    ensures Parse(Join(keys, '.')) == Rules([keys], [], false)
  {
    var line := Join(keys, '.');
    ParseOneLine(line);
    CleanLinePlain(line);
    SplitPlain(keys);
  }

  /** A line holding `!` and a plain dotted name allows that path. */
  lemma PlainAllowLine(keys: Path)
    requires PlainName(keys)
    ensures Parse("!" + Join(keys, '.')) == Rules([], [keys], false)
  {
    var line := "!" + Join(keys, '.');
    assert line[1..] == Join(keys, '.');
    ParseOneLine(line);
    CleanLinePlain(line);
    SplitPlain(keys);
  }

  /** A line that is only `*` sets the flag and adds no path. */
  lemma StarLine()
    ensures Parse("*") == Rules([], [], true)
  {
    var line := "*";
    ParseOneLine(line);
    CleanLinePlain(line);
  }

  /** With no rule file, the default text `devDependencies` ignores exactly the key `devDependencies`. */
  lemma DefaultRules()
    ensures Parse(RuleText(None)) == Rules([["devDependencies"]], [], false)
  {
    var keys := ["devDependencies"];
    assert Join(keys, '.') == RuleText(None);
    PlainIgnoreLine(keys);
  }

  /** A key with no character the parser treats specially and no surrounding whitespace. */
  predicate PlainKey(key: string) {
    && key != []
    && '#' !in key && '\\' !in key && '.' !in key && '\n' !in key
    && !IsWhitespace(key[0]) && !IsWhitespace(key[|key| - 1])
  }

  lemma PlainPair(a: string, b: string)
    requires PlainKey(a) && PlainKey(b)
    ensures Join([a, b], '.') == a + "." + b
    ensures PlainName([a, b])
  {
    var name := a + "." + b;
    assert Join([a, b], '.') == name;
    assert forall i :: 0 <= i < |name| ==> name[i] == (if i < |a| then a[i] else if i == |a| then '.' else b[i - |a| - 1]);
  }

  /** `a.b`, `!a.c` and `*` give one ignore path, one allow path and the flag. */
  lemma ExampleMixed(a: string, b: string, c: string)
    requires PlainKey(a) && PlainKey(b) && PlainKey(c) && a[0] != '!'
    ensures Parse(a + "." + b + "\n!" + a + "." + c + "\n*") == Rules([[a, b]], [[a, c]], true)
  {
    var l1, rest := a + "." + b, "!" + (a + "." + c) + "\n" + "*";
    assert a + "." + b + "\n!" + a + "." + c + "\n*" == l1 + "\n" + rest;
    ParseAppend(l1, rest);
    MixedHead(a, b);
    MixedTail(a, c, "*");
  }

  lemma MixedHead(a: string, b: string)
    requires PlainKey(a) && PlainKey(b) && a[0] != '!'
    ensures Parse(a + "." + b) == Rules([[a, b]], [], false)
  {
    PlainPair(a, b);
    PlainIgnoreLine([a, b]);
  }

  /**
   * The last two lines of ExampleMixed. The `*` line arrives as the
   * parameter `star` rather than as a literal so that the string
   * concatenation in the statement stays symbolic and the proof small.
   */
  lemma MixedTail(a: string, c: string, star: string)
    requires PlainKey(a) && PlainKey(c) && star == "*"
    ensures Parse("!" + (a + "." + c) + "\n" + star) == Rules([], [[a, c]], true)
  {
    var l2 := "!" + (a + "." + c);
    ParseAppend(l2, star);
    PlainPair(a, c);
    PlainAllowLine([a, c]);
    StarLine();
  }

  /** An escaped dot stays inside its key: `a\.b` is the single key `a.b`. */
  lemma ExampleEscapedDot(a: string, b: string)
    requires PlainKey(a) && PlainKey(b) && a[0] != '!'
    ensures Parse(a + "\\." + b) == Rules([[a + "." + b]], [], false)
  {
    var line := a + "\\." + b;
    EscapedDotLine(a, b);
    ParseOneLine(line);
    SplitJoinPath([a + "." + b]);
  }

  lemma EscapedDotLine(a: string, b: string)
    requires PlainKey(a) && PlainKey(b)
    ensures JoinPath([a + "." + b]) == a + "\\." + b
    ensures CleanLine(a + "\\." + b) == a + "\\." + b
    ensures '\n' !in a + "\\." + b && (a + "\\." + b)[0] == a[0]
  {
    EscapedDotJoin(a, b);
    var line := a + "\\." + b;
    assert line == a + ("\\." + b);
    assert line[0] == a[0] && line[|line| - 1] == b[|b| - 1];
    CleanLinePlain(line);
  }

  lemma EscapedDotJoin(a: string, b: string)
    requires PlainKey(a) && PlainKey(b)
    ensures JoinPath([a + "." + b]) == a + "\\." + b
  {
    var key := a + "." + b;
    assert JoinPath([key]) == Escape(key);
    EscapeDotted(a, b);
  }

  lemma EscapeDotted(a: string, b: string)
    requires PlainKey(a) && PlainKey(b)
    ensures Escape(a + "." + b) == a + "\\." + b
  {
    EscapePlain(a);
    EscapePlain(b);
    EscapeAround(a, ".", b);
    EscapeDot();
  }

  lemma EscapeAround(a: string, m: string, b: string)
    requires Escape(a) == a && Escape(b) == b
    ensures Escape(a + m + b) == a + Escape(m) + b
  {
    EscapeAppend(a, m + b);
    EscapeAppend(m, b);
    assert a + m + b == a + (m + b);
  }

  lemma EscapeDot()
    ensures Escape(".") == "\\."
  {
  }

  lemma {:induction false} EscapeAppend(x: string, y: string)
    ensures Escape(x + y) == Escape(x) + Escape(y)
    decreases |x|
  {
    if x == [] {
      assert x + y == y;
    } else {
      assert (x + y)[1..] == x[1..] + y;
      EscapeAppend(x[1..], y);
    }
  }

  /** `!*` is the allow path `["*"]`, not the flag. */
  lemma ExampleAllowStar()
    ensures Parse("!*") == Rules([], [["*"]], false)
  {
    var keys := ["*"];
    assert "!*" == "!" + Join(keys, '.');
    PlainAllowLine(keys);
  }

  /** A comment line, a blank line and a whitespace-only line give no rules. */
  lemma ExampleOnlyComments(comment: string, blank: string)
    requires comment != [] && comment[0] == '#' && '\n' !in comment
    requires '\n' !in blank && forall k :: 0 <= k < |blank| ==> IsWhitespace(blank[k])
    ensures Parse(comment + "\n\n" + blank + "\n") == NoRules
  {
    var e := "";
    var rest := e + "\n" + (blank + "\n" + e);
    assert comment + "\n\n" + blank + "\n" == comment + "\n" + rest;
    ParseAppend(comment, rest);
    CommentOnlyLine(comment);
    BlankLines(blank);
  }

  lemma CommentOnlyLine(comment: string)
    requires comment != [] && comment[0] == '#' && '\n' !in comment
    ensures Parse(comment) == NoRules
  {
    ParseOneLine(comment);
    assert CommentStart(comment, 0, false) == 0;
  }

  lemma BlankLines(blank: string)
    requires '\n' !in blank && forall k :: 0 <= k < |blank| ==> IsWhitespace(blank[k])
    ensures Parse("" + "\n" + (blank + "\n" + "")) == NoRules
  {
    var e := "";
    ParseAppend(e, blank + "\n" + e);
    ParseAppend(blank, e);
    ParseOneLine(e);
    BlankLine(blank);
  }

  lemma BlankLine(blank: string)
    requires '\n' !in blank && forall k :: 0 <= k < |blank| ==> IsWhitespace(blank[k])
    ensures Parse(blank) == NoRules
  {
    ParseOneLine(blank);
    assert '#' !in blank;
    CommentStrippedNoHash(blank);
    LeadingWhitespaceAll(blank);
  }

  /** Consecutive dots give empty keys, and a trailing dot adds no key. */
  lemma ExampleDots()
    ensures SplitPath("a..b") == ["a", "", "b"]
    ensures SplitPath("a.") == ["a"]
    ensures SplitPath("") == []
  {
    assert JoinPath(["a", "", "b"]) == "a..b";
    SplitJoinPath(["a", "", "b"]);
    assert SplitPath("a.") == SplitFrom(".", false, "a");
  }
}
