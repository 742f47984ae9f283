/**
 * The two cleaning modes of package-ignore (bin/index.cjs:66-92) and the
 * list appliers they use, `applyBlacklist` and `applyWhitelist`
 * (bin/index.cjs:211-224).
 */
module Cleaner {
  import opened Wrappers
  import opened Document
  import opened Mutator
  import opened Patterns

  /** The document after removing each blacklisted path in list order. */
  function RemoveAll(doc: Doc, blacklist: seq<Path>): Doc
    decreases |blacklist|
  {
    if blacklist == [] then doc
    else RemoveAll(RemoveByPath(doc, blacklist[0]), blacklist[1..])
  }

  /** The target after copying each whitelisted path from `original`, in list order. */
  function CopyAll(target: Doc, whitelist: seq<Path>, original: Doc): Doc
    decreases |whitelist|
  {
    if whitelist == [] then target
    else CopyAll(CopyByPath(target, original, whitelist[0]), whitelist[1..], original)
  }

  /**
   * The cleaned document: with `*`, only the allow paths copied into an
   * empty object; otherwise the ignore paths removed from a copy of the
   * document and then the allow paths copied back from the original.
   */
  function Cleaned(doc: Doc, rules: Rules): Doc {
    if rules.excludeAll then CopyAll(map[], rules.allow, doc)
    else CopyAll(RemoveAll(doc, rules.ignore), rules.allow, doc)
  }

  /** `applyBlacklist`: removes the paths one after the other. */
  method ApplyBlacklist(doc: Doc, blacklist: seq<Path>) returns (cleaned: Doc)
    ensures cleaned == RemoveAll(doc, blacklist)
  {
    cleaned := doc;
    for i := 0 to |blacklist|
      invariant RemoveAll(cleaned, blacklist[i..]) == RemoveAll(doc, blacklist)
    {
      assert blacklist[i..][1..] == blacklist[i + 1..];
      cleaned := RemoveByPath(cleaned, blacklist[i]);
    }
  }

  /** `applyWhitelist`: copies the paths from the original one after the other. */
  method ApplyWhitelist(target: Doc, whitelist: seq<Path>, original: Doc) returns (cleaned: Doc)
    ensures cleaned == CopyAll(target, whitelist, original)
  {
    cleaned := target;
    for i := 0 to |whitelist|
      invariant CopyAll(cleaned, whitelist[i..], original) == CopyAll(target, whitelist, original)
    {
      assert whitelist[i..][1..] == whitelist[i + 1..];
      cleaned := CopyByPath(cleaned, original, whitelist[i]);
    }
  }

  /**
   * The clean step: parses the rule file's text (the default rule when no
   * file was found) and applies the mode it selects.
   */
  method Clean(doc: Doc, ruleFile: Option<string>) returns (cleaned: Doc)
    ensures cleaned == Cleaned(doc, Parse(RuleText(ruleFile)))
  {
    var rules := ParseIgnorePatterns(RuleText(ruleFile));
    if rules.excludeAll {
      cleaned := ApplyWhitelist(map[], rules.allow, doc);
    } else {
      var working := ApplyBlacklist(doc, rules.ignore);
      cleaned := ApplyWhitelist(working, rules.allow, doc);
    }
  }

  // ---------------------------------------------------------------------
  // applyBlacklist
  // ---------------------------------------------------------------------

  /** Removing a list of paths never creates a value. */
  lemma {:induction false} RemoveAllOnlyDeletes(doc: Doc, blacklist: seq<Path>, q: Path)
    requires Get(doc, q) == None
    ensures Get(RemoveAll(doc, blacklist), q) == None
    decreases |blacklist|
  {
    if blacklist != [] {
      RemoveOnlyDeletes(doc, blacklist[0], q);
      RemoveAllOnlyDeletes(RemoveByPath(doc, blacklist[0]), blacklist[1..], q);
    }
  }

  /** Every non-empty blacklisted path is absent afterwards. */
  lemma {:induction false} RemoveAllRemoves(doc: Doc, blacklist: seq<Path>, p: Path)
    requires p in blacklist && p != []
    ensures Get(RemoveAll(doc, blacklist), p) == None
    decreases |blacklist|
  {
    if blacklist[0] == p {
      RemoveAllOnlyDeletes(RemoveByPath(doc, p), blacklist[1..], p);
    } else {
      RemoveAllRemoves(RemoveByPath(doc, blacklist[0]), blacklist[1..], p);
    }
  }

  /** A path disjoint from every blacklisted path keeps its value. */
  lemma {:induction false} RemoveAllFrame(doc: Doc, blacklist: seq<Path>, q: Path)
    requires forall p :: p in blacklist ==> p == [] || Disjoint(p, q)
    ensures Get(RemoveAll(doc, blacklist), q) == Get(doc, q)
    decreases |blacklist|
  {
    if blacklist != [] {
      if blacklist[0] != [] {
        RemoveFrame(doc, blacklist[0], q);
      }
      RemoveAllFrame(RemoveByPath(doc, blacklist[0]), blacklist[1..], q);
    }
  }

  /** Removing paths that are all absent changes nothing. */
  lemma {:induction false} RemoveAllAbsent(doc: Doc, blacklist: seq<Path>)
    requires forall p :: p in blacklist && p != [] ==> Get(doc, p) == None
    ensures RemoveAll(doc, blacklist) == doc
    decreases |blacklist|
  {
    if blacklist != [] {
      if blacklist[0] != [] {
        RemoveNoOpIff(doc, blacklist[0]);
      }
      RemoveAllAbsent(doc, blacklist[1..]);
    }
  }

  /** Applying a blacklist to its own result changes nothing more. */
  lemma BlacklistIdempotent(doc: Doc, blacklist: seq<Path>)
    ensures RemoveAll(RemoveAll(doc, blacklist), blacklist) == RemoveAll(doc, blacklist)
  {
    forall p | p in blacklist && p != []
      ensures Get(RemoveAll(doc, blacklist), p) == None
    {
      RemoveAllRemoves(doc, blacklist, p);
    }
    RemoveAllAbsent(RemoveAll(doc, blacklist), blacklist);
  }

  // ---------------------------------------------------------------------
  // applyWhitelist
  // ---------------------------------------------------------------------

  /** Where the target agrees with the original, it still does after copying a list. */
  lemma {:induction false} CopyAllKeepsAgreement(t: Doc, whitelist: seq<Path>, s: Doc, q: Path)
    requires Get(t, q) == Get(s, q)
    ensures Get(CopyAll(t, whitelist, s), q) == Get(s, q)
    decreases |whitelist|
  {
    if whitelist != [] {
      CopyKeepsAgreement(t, s, whitelist[0], q);
      CopyAllKeepsAgreement(CopyByPath(t, s, whitelist[0]), whitelist[1..], s, q);
    }
  }

  /** Every whitelisted path the original holds ends with the original's value. */
  lemma {:induction false} CopyAllCopies(t: Doc, whitelist: seq<Path>, s: Doc, p: Path)
    requires p in whitelist && p != [] && Get(s, p).Some?
    ensures Get(CopyAll(t, whitelist, s), p) == Get(s, p)
    decreases |whitelist|
  {
    if whitelist[0] == p {
      CopyAllKeepsAgreement(CopyByPath(t, s, p), whitelist[1..], s, p);
    } else {
      CopyAllCopies(CopyByPath(t, s, whitelist[0]), whitelist[1..], s, p);
    }
  }

  /** A path disjoint from every whitelisted path keeps the target's value. */
  lemma {:induction false} CopyAllFrame(t: Doc, whitelist: seq<Path>, s: Doc, q: Path)
    requires forall a :: a in whitelist ==> a == [] || Disjoint(a, q)
    ensures Get(CopyAll(t, whitelist, s), q) == Get(t, q)
    decreases |whitelist|
  {
    if whitelist != [] {
      if whitelist[0] != [] {
        CopyFrame(t, s, whitelist[0], q);
      }
      CopyAllFrame(CopyByPath(t, s, whitelist[0]), whitelist[1..], s, q);
    }
  }

  /**
   * `q` leads to a whitelisted path, or lies at or below a whitelisted path
   * that the original holds.
   */
  predicate Reached(whitelist: seq<Path>, original: Doc, q: Path) {
    exists a :: a in whitelist && a != [] && (q < a || (a <= q && Get(original, a).Some?))
  }

  /** After copying, a value is either the target's own or was reached by a whitelisted path. */
  lemma {:induction false} CopyAllReach(t: Doc, whitelist: seq<Path>, s: Doc, q: Path)
    requires q != [] && Get(CopyAll(t, whitelist, s), q).Some?
    ensures Get(t, q).Some? || Reached(whitelist, s, q)
    decreases |whitelist|
  {
    if whitelist != [] {
      var a := whitelist[0];
      var t1 := CopyByPath(t, s, a);
      CopyAllReach(t1, whitelist[1..], s, q);
      if Reached(whitelist[1..], s, q) {
        var b :| b in whitelist[1..] && b != [] && (q < b || (b <= q && Get(s, b).Some?));
        assert b in whitelist;
      } else if a == [] {
        assert t1 == t;
      } else if Disjoint(a, q) {
        CopyFrame(t, s, a, q);
      } else if q < a || Get(s, a).Some? {
        assert a in whitelist;
      } else {
        CopyMissingLeaf(t, s, a, q);
      }
    }
  }

  /** Copying any list of paths from a document onto itself changes nothing. */
  lemma {:induction false} CopyAllOntoItself(d: Doc, whitelist: seq<Path>)
    ensures CopyAll(d, whitelist, d) == d
    decreases |whitelist|
  {
    if whitelist != [] {
      CopyOntoItself(d, whitelist[0]);
      CopyAllOntoItself(d, whitelist[1..]);
    }
  }

  // ---------------------------------------------------------------------
  // The two modes
  // ---------------------------------------------------------------------

  /**
   * Allow wins, in both modes: wherever the original holds a value at an
   * allow path, the cleaned document holds the same value there and the
   * same subtree below it, even when an ignore path removed an ancestor.
   */
  lemma AllowWins(doc: Doc, rules: Rules, p: Path, r: Path)
    requires p in rules.allow && p != [] && Get(doc, p).Some?
    ensures Get(Cleaned(doc, rules), p) == Get(doc, p)
    ensures Get(Cleaned(doc, rules), p + r) == Get(doc, p + r)
  {
    var start := if rules.excludeAll then map[] else RemoveAll(doc, rules.ignore);
    CopyAllCopies(start, rules.allow, doc, p);
    AgreeBelow(Cleaned(doc, rules), doc, p, r);
  }

  /** Default mode: a path disjoint from every ignore path keeps its value, whatever the allow paths. */
  lemma DefaultKeepsUnignored(doc: Doc, rules: Rules, q: Path)
    requires !rules.excludeAll
    requires forall p :: p in rules.ignore ==> p == [] || Disjoint(p, q)
    ensures Get(Cleaned(doc, rules), q) == Get(doc, q)
  {
    RemoveAllFrame(doc, rules.ignore, q);
    CopyAllKeepsAgreement(RemoveAll(doc, rules.ignore), rules.allow, doc, q);
  }

  /** Default mode: an ignored path that no allow path touches is absent afterwards. */
  lemma DefaultRemovesIgnored(doc: Doc, rules: Rules, p: Path)
    requires !rules.excludeAll && p in rules.ignore && p != []
    requires forall a :: a in rules.allow ==> a == [] || Disjoint(a, p)
    ensures Get(Cleaned(doc, rules), p) == None
  {
    RemoveAllRemoves(doc, rules.ignore, p);
    CopyAllFrame(RemoveAll(doc, rules.ignore), rules.allow, doc, p);
  }

  /**
   * With `*`: the ignore list is never consulted, and every value in the
   * cleaned document leads to an allow path or lies at or below an allow
   * path that the original holds (where, by AllowWins, it is the original's).
   */
  lemma ExcludeAllOnlyAllowed(doc: Doc, rules: Rules, q: Path)
    requires rules.excludeAll && q != [] && Get(Cleaned(doc, rules), q).Some?
    ensures Cleaned(doc, rules) == Cleaned(doc, Rules([], rules.allow, true))
    ensures Reached(rules.allow, doc, q)
  {
    CopyAllReach(map[], rules.allow, doc, q);
  }

  /**
   * Default mode is idempotent once the ignored paths are absent from the
   * result: cleaning the cleaned document again, as the new original, gives
   * it back unchanged.
   */
  lemma CleanIdempotent(doc: Doc, rules: Rules)
    requires !rules.excludeAll
    requires forall p :: p in rules.ignore && p != [] ==> Get(Cleaned(doc, rules), p) == None
    ensures Cleaned(Cleaned(doc, rules), rules) == Cleaned(doc, rules)
  {
    var c := Cleaned(doc, rules);
    RemoveAllAbsent(c, rules.ignore);
    CopyAllOntoItself(c, rules.allow);
  }

  /** Without a rule file, exactly the top-level `devDependencies` key is removed. */
  lemma NoRuleFile(doc: Doc)
    ensures Cleaned(doc, Parse(RuleText(None))) == doc - {"devDependencies"}
  {
    DefaultRules();
  }

  /** Ignoring `a.b` on `{a: {b: x, c: y}, d: z}` gives `{a: {c: y}, d: z}`. */
  lemma ExampleIgnoreLeaf(a: string, b: string, c: string, d: string, x: Json, y: Json, z: Json)
    requires a != d && b != c
    ensures Cleaned(map[a := Obj(map[b := x, c := y]), d := z], Rules([[a, b]], [], false))
         == map[a := Obj(map[c := y]), d := z]
  {
    var doc := map[a := Obj(map[b := x, c := y]), d := z];
    var ignore := [[a, b]];
    assert ignore[1..] == [] && [a, b][1..] == [b];
    assert RemoveByPath(map[b := x, c := y], [b]) == map[c := y];
    assert RemoveAll(doc, ignore) == RemoveByPath(doc, [a, b]) == doc[a := Obj(map[c := y])];
  }

  /**
   * Ignoring `a` and allowing `a.b` on `{a: {b: x, c: y}, d: z}` gives
   * `{a: {b: x}, d: z}`: the allowed leaf comes back without its siblings.
   */
  lemma ExampleAllowUnderIgnored(a: string, b: string, c: string, d: string, x: Json, y: Json, z: Json)
    requires a != d && b != c
    ensures Cleaned(map[a := Obj(map[b := x, c := y]), d := z], Rules([[a]], [[a, b]], false))
         == map[a := Obj(map[b := x]), d := z]
  {
    var doc := map[a := Obj(map[b := x, c := y]), d := z];
    var rules := Rules([[a]], [[a, b]], false);
    assert rules.ignore[1..] == [] && rules.allow[1..] == [];
    var removed := RemoveByPath(doc, [a]);
    assert RemoveAll(doc, rules.ignore) == removed == map[d := z];
    var leaf := CopyByPath(map[], map[b := x, c := y], [b]);
    assert leaf == map[b := x];
    assert [a, b][1..] == [b];
    assert CopyAll(removed, rules.allow, doc) == CopyByPath(removed, doc, [a, b]) == removed[a := Obj(leaf)];
  }

  /** With `*` and allowing `a` on `{a: x, b: y}`, only `{a: x}` is left. */
  lemma ExampleExcludeAll(a: string, b: string, x: Json, y: Json)
    requires a != b
    ensures Cleaned(map[a := x, b := y], Rules([[b]], [[a]], true)) == map[a := x]
  {
    var doc := map[a := x, b := y];
    var allow := [[a]];
    assert allow[1..] == [];
    assert CopyAll(map[], allow, doc) == CopyByPath(map[], doc, [a]) == map[a := x];
  }
}
