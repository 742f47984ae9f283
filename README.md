# package-ignore in Dafny

package-ignore trims a `package.json` before publishing. It reads a rule
file, `.package-ignore`, whose lines name key paths such as
`scripts.test`. Plain lines are ignore paths, lines starting with `!` are
allow paths, and a line `*` means "exclude everything". In default mode it
deletes every ignore path from a copy of the document and then copies every
allow path back from the original. With `*` it starts from `{}` and copies
only the allow paths.

This project models the core of `bin/index.cjs` and proves what it does:

- `text.dfy`, module `Text`: the string primitives the parser relies on.
  These are `split('\n')`, `trim()` with the ECMAScript whitespace and
  line-terminator set, and joining.
- `patterns.dfy`, module `Patterns`: the rule parser.
  - It covers `parseIgnorePatterns`, `splitByUnescapedDot` and `unescapeKey`.
  - Each loop of the source is a method proved equal to a recursive
    specification function: the comment scan, the trim, the filter, the
    classification and the dot split.
  - The lemmas state what those functions mean: comment stripping,
    classification, counts, splitting and the escape round trip.
- `document.dfy`, module `Document`: the JSON document and walking a key
  path through it.
- `mutator.dfy`, module `Mutator`: `removeByPath` and `copyByPath`, with
  their frame, no-op, container and idempotence properties.
- `cleaner.dfy`, module `Cleaner`: `applyBlacklist`, `applyWhitelist` and
  the two cleaning modes. It proves that allow paths win, what default mode
  keeps and removes, and that exclude-all mode holds only data reached
  through allow paths.
- `wrappers.dfy`, module `Wrappers`: an `Option` type.

Modelling decisions:

- **Documents are values.** The source edits its working copy in place,
  but that copy is a deep copy (`bin/index.cjs:88`). So each edit is
  modelled as a function from the document before to the document after.
- **Shared subtrees are harmless.** `copyByPath` assigns
  `target[key] = source[key]`, so the cleaned document can share a subtree
  with the original. Later copies into a shared subtree write the source's
  own values at the same positions, and nothing is deleted after the copies
  start. No aliasing effect is therefore observable.
- **Arrays are objects.** The container test `x && typeof x === 'object'`
  accepts arrays and walks them by string index. The model represents an
  array as an object keyed by its decimal indices.
- **`unescapeKey` is exact.** It is the regular expression `\\(.)` without
  the `s` flag, so a backslash before `\n`, `\r`, U+2028 or U+2029 is kept.
  The model keeps that exception.
- **The rule file is a parameter.** Its contents are the `ruleFile`
  parameter of `Cleaner.Clean`. `None` stands for "no file found", which
  selects the text `devDependencies` (`bin/index.cjs:58-64`).
- **Parsing is deterministic by construction.** `Patterns.Parse` is a
  function of the rule text alone.

## Model

| member | source | states |
|---|---|---|
| Text.SplitOnJoin | bin/index.cjs:124-125 | splitting on a one-character separator gives pieces free of the separator, and joining them back with it restores the text |
| Text.SplitLines | bin/index.cjs:124-125 | `split('\n')` always returns at least one line, even for the empty text |
| Text.SplitLinesJoin | bin/index.cjs:124-125 | `split('\n')` gives lines without a newline that join back to the rule text |
| Text.SplitLinesAppend | bin/index.cjs:124-125 | the lines of `a + "\n" + b` are the lines of `a` followed by the lines of `b` |
| Text.Trim | bin/index.cjs:144 | `trim()` is never longer than the line, and what it keeps neither starts nor ends with whitespace or a line terminator |
| Text.TrimIsSlice | bin/index.cjs:144 | a trimmed line is a contiguous slice of the line with only whitespace cut on either side |
| Text.TrimUnchanged | bin/index.cjs:144 | a line without whitespace at either end is left as it is |
| Text.LeadingWhitespaceAll | bin/index.cjs:144-145 | a line made only of whitespace trims to the empty line |
| Patterns.EscapedIffOddRun | bin/index.cjs:129-140 | the toggled `escaped` flag before a character is set exactly when an odd run of backslashes immediately precedes it |
| Patterns.StripComment | bin/index.cjs:126-143 | the comment-removing loop returns the comment-stripped line |
| Patterns.CommentStartFirstUnescapedHash | bin/index.cjs:130-141 | the scan stops at the first `#` whose escape flag is clear; every earlier `#` is escaped |
| Patterns.CommentStrippedIsPrefix | bin/index.cjs:126-143 | the stripped line is a prefix of the line (all backslashes kept), cut just before the first `#` preceded by an even run of backslashes, and every `#` it keeps follows an odd run |
| Patterns.Unescape | bin/index.cjs:204-206 | `unescapeKey` is never longer than the key and removes only backslashes: the other characters stay, in order |
| Patterns.UnescapeIdentityIff | bin/index.cjs:204-206 | a key is unchanged by unescaping exactly when it holds no backslash followed by a non-line-terminator |
| Patterns.UnescapeEscape | bin/index.cjs:204-206 | unescaping undoes escaping `\` and `.` |
| Patterns.SplitByUnescapedDot | bin/index.cjs:175-199 | the splitting loop returns the path the recursive splitting function defines |
| Patterns.SplitPathCount | bin/index.cjs:180-196 | the number of segments is the number of unescaped dots, plus one when the text does not end in an unescaped dot |
| Patterns.SplitFromEscaped | bin/index.cjs:180-191 | an escaped key is read whole into the current segment: none of its dots splits |
| Patterns.SplitJoinPath | bin/index.cjs:175-206 | escaping each key, joining with `.` and splitting gives the keys back when the last key is not empty |
| Patterns.ExampleDots | bin/index.cjs:185-196 | `a..b` gives `["a", "", "b"]`, `a.` gives `["a"]` and the empty text gives no segment |
| Patterns.ParseIgnorePatterns | bin/index.cjs:123-170 | the parser returns the ignore list, allow list and flag that the specification function gives |
| Patterns.CleanRuleLines | bin/index.cjs:124-145 | the map/map/filter chain gives the cleaned, non-empty lines in order |
| Patterns.StripComments | bin/index.cjs:126-143 | each line is comment-stripped, in place and order |
| Patterns.TrimLines | bin/index.cjs:144 | each line is trimmed, in place and order |
| Patterns.KeepNonEmpty | bin/index.cjs:145 | the empty lines are dropped and the others kept in order |
| Patterns.NonEmptyMember | bin/index.cjs:145 | a line survives the filter exactly when it is non-empty and present |
| Patterns.ClassifyLines | bin/index.cjs:151-167 | the `forEach` pushes each non-`*` line's path onto the allow list if it starts with `!` (that `!` removed) and onto the ignore list otherwise, in line order |
| Patterns.IgnorePathsAppend | bin/index.cjs:156-167 | classification distributes over concatenated line lists: order is kept, nothing is sorted or deduplicated |
| Patterns.ParseLineByLine | bin/index.cjs:124-167 | parsing a text equals reading it line by line, each raw line contributing its own rules in order |
| Patterns.RulesOfLinesAppend | bin/index.cjs:156-167 | the rules of two blocks of lines are the first block's followed by the second's |
| Patterns.ParseAppend | bin/index.cjs:124-169 | parsing `a + "\n" + b` appends the lists of `b` to those of `a` and ors the flags |
| Patterns.ParseOneLine | bin/index.cjs:147-167 | one line yields nothing if it cleans to empty, only the flag if it is exactly `*`, an allow path if it starts with `!`, and an ignore path otherwise |
| Patterns.CleanLinesMember | bin/index.cjs:124-145 | a non-empty line survives cleaning exactly when some raw line cleans to it |
| Patterns.ExcludeAllIff | bin/index.cjs:147-148 | the flag is set exactly when some line, comment-stripped and trimmed, is `*` |
| Patterns.PathCountOfLines | bin/index.cjs:151-167 | ignore paths plus allow paths plus `*` lines equals the number of lines |
| Patterns.PathCount | bin/index.cjs:145-167 | the number of paths is the number of surviving lines other than `*` |
| Patterns.PlainIgnoreLine | bin/index.cjs:162-165 | a plain dotted name is one ignore path holding its keys |
| Patterns.PlainAllowLine | bin/index.cjs:157-161 | `!` and a plain dotted name is one allow path holding its keys |
| Patterns.StarLine | bin/index.cjs:147-151 | a `*` line sets the flag and adds no path |
| Patterns.ExampleAllowStar | bin/index.cjs:147-161 | `!*` is the allow path `["*"]`, not the flag |
| Patterns.DefaultRules | bin/index.cjs:58-66 | without a rule file the rules are one ignore path `["devDependencies"]`, no allow path, and no flag |
| Patterns.ExampleMixed | bin/index.cjs:123-170 | `a.b`, `!a.c`, `*` give ignore `[[a, b]]`, allow `[[a, c]]` and the flag |
| Patterns.ExampleEscapedDot | bin/index.cjs:175-206 | `a\.b` is one ignore path whose single key is `a.b` |
| Patterns.ExampleOnlyComments | bin/index.cjs:124-145 | a comment line, an empty line and a blank line give no rules |
| Mutator.RemoveByPath | bin/index.cjs:229-238 | an empty path changes nothing; otherwise nothing is left at the path |
| Mutator.RemoveFrame | bin/index.cjs:229-238 | a path disjoint from the removed one keeps its value |
| Mutator.RemoveOnlyDeletes | bin/index.cjs:229-238 | removing never creates a value |
| Mutator.RemoveParent | bin/index.cjs:232-234 | the parent object loses exactly the last key and stays in place, even when emptied |
| Mutator.RemoveKeepsAncestors | bin/index.cjs:235-237 | every ancestor of the parent is still an object with the same keys |
| Mutator.RemoveNoOpIff | bin/index.cjs:229-238 | removing a non-empty path changes nothing exactly when the path reaches no value: a missing key, or an intermediate that is null or not an object |
| Mutator.RemoveIdempotent | bin/index.cjs:229-238 | removing twice is removing once |
| Mutator.CopyByPath | bin/index.cjs:243-257 | an empty path changes nothing; when the source holds a value at the path, the target afterwards holds that value there |
| Mutator.CopyFrame | bin/index.cjs:243-257 | a path disjoint from the copied one keeps the target's value |
| Mutator.CopyContainers | bin/index.cjs:251-255 | every intermediate where the source holds an object is an object in the target afterwards, even when the source leaf is missing |
| Mutator.CopyAbandoned | bin/index.cjs:251-256 | where a source intermediate is not an object, nothing at or below it changes in the target |
| Mutator.CopyMissingLeaf | bin/index.cjs:247-250 | where the source has no value at the path, nothing at or below the path changes in the target |
| Mutator.CopyKeepsAgreement | bin/index.cjs:243-257 | wherever the target already equals the source, it still does after a copy |
| Mutator.CopyOntoItself | bin/index.cjs:243-257 | copying a document onto itself changes nothing |
| Mutator.CopyIdempotent | bin/index.cjs:243-257 | copying the same path twice is copying it once |
| Cleaner.ApplyBlacklist | bin/index.cjs:211-215 | the loop removes the paths one after the other, in list order |
| Cleaner.ApplyWhitelist | bin/index.cjs:220-224 | the loop copies the paths from the original one after the other, in list order |
| Cleaner.RemoveAllOnlyDeletes | bin/index.cjs:211-215 | applying a blacklist never creates a value |
| Cleaner.RemoveAllRemoves | bin/index.cjs:211-215 | every non-empty blacklisted path is absent afterwards |
| Cleaner.RemoveAllFrame | bin/index.cjs:211-215 | a path disjoint from every blacklisted path keeps its value |
| Cleaner.RemoveAllAbsent | bin/index.cjs:211-215 | a blacklist whose paths are all absent changes nothing |
| Cleaner.BlacklistIdempotent | bin/index.cjs:211-215 | applying a blacklist to its own result changes nothing more |
| Cleaner.CopyAllKeepsAgreement | bin/index.cjs:220-224 | wherever the target equals the original, it still does after the whitelist |
| Cleaner.CopyAllCopies | bin/index.cjs:220-224 | every whitelisted path the original holds ends with the original's value, whatever comes after it in the list |
| Cleaner.CopyAllFrame | bin/index.cjs:220-224 | a path disjoint from every whitelisted path keeps the target's value |
| Cleaner.CopyAllReach | bin/index.cjs:220-224 | every value after the whitelist is the target's own, or leads to a whitelisted path, or lies at or below a whitelisted path the original holds |
| Cleaner.CopyAllOntoItself | bin/index.cjs:220-224 | copying a whitelist from a document onto itself changes nothing |
| Cleaner.Clean | bin/index.cjs:58-92 | the clean step parses the rule text (the default when no file is found) and applies the mode it selects |
| Cleaner.AllowWins | bin/index.cjs:68-92 | in both modes, an allow path the original holds ends with the original's value and subtree, even under an ignored ancestor |
| Cleaner.DefaultKeepsUnignored | bin/index.cjs:86-92 | in default mode a path disjoint from every ignore path keeps its value |
| Cleaner.DefaultRemovesIgnored | bin/index.cjs:86-92 | in default mode an ignore path that no allow path touches is absent from the result |
| Cleaner.ExcludeAllOnlyAllowed | bin/index.cjs:68-71 | with `*` the ignore list is not consulted, and every value leads to an allow path or lies at or below one the original holds |
| Cleaner.CleanIdempotent | bin/index.cjs:86-92 | in default mode, once the ignored paths are absent from the result, cleaning the result again gives it back |
| Cleaner.NoRuleFile | bin/index.cjs:58-92 | without a rule file exactly the top-level `devDependencies` key is removed |
| Cleaner.ExampleIgnoreLeaf | bin/index.cjs:86-92 | ignoring `a.b` on `{a: {b, c}, d}` leaves `{a: {c}, d}` |
| Cleaner.ExampleAllowUnderIgnored | bin/index.cjs:86-92 | ignoring `a` and allowing `a.b` on `{a: {b, c}, d}` leaves `{a: {b}, d}` |
| Cleaner.ExampleExcludeAll | bin/index.cjs:68-71 | with `*` and allowing `a` on `{a, b}`, only `{a}` is left |

## Left out

- Command dispatch, help text, exit codes, console output and the
  `--dry-run` printing (`bin/index.cjs:7-120`, apart from the clean step).
  These are command-line glue.
- File I/O: reading and writing `package.json`, the backup and restore
  files, and `resolveFile`'s upward directory walk
  (`bin/index.cjs:266-280`). The rule file's contents come in as a
  parameter instead.
- `JSON.parse` and `JSON.stringify`. The document is a `Json` value. The
  deep copy at `bin/index.cjs:88` is value semantics.
- `originalKeys` (`bin/index.cjs:89`). It is never used.
- JavaScript prototype-chain lookups. Examples are `obj["__proto__"]` or
  `source["toString"]`, which find inherited properties. Key lookup is
  modelled as own-key membership.
- Array-specific behaviour. Arrays are index-keyed objects, so these are
  not modelled:
  - `length`;
  - holes left by `delete`, which JSON prints as `null` while the model
    drops the key;
  - the serialised form of an array.
- Key order. JavaScript objects keep insertion order, and `JSON.stringify`
  writes keys in that order; the model's objects are maps and have none.
  So the model does not show that a key deleted at `bin/index.cjs:234` and
  written back at `:249` moves to the end of its object. It also does not
  show that in exclude-all mode the keys come out in allow-list order. Two
  documents the model calls equal may therefore serialise differently.
- A `package.json` whose top level is not an object. The model's document
  is always an object.
- UTF-16 code units. Strings are sequences of code points. The characters
  the scans test (`\`, `#`, `.`, `!`, `*`) are all single code units, so
  this only matters for lone surrogates.
- Cleaner.CleanIdempotent: proved only for default mode and only under its
  stated precondition that every ignored path is absent from the result.
  The exclude-all half of the idempotence claim is not proved.
