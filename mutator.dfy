/**
 * The path mutator of package-ignore: `removeByPath` and `copyByPath`
 * (bin/index.cjs:229-257). The source edits a working copy in place; the
 * working copy is a deep copy (bin/index.cjs:88), so each edit is modelled
 * as a function from the document before to the document after.
 */
module Mutator {
  import opened Wrappers
  import opened Document

  /**
   * `removeByPath(obj, path)`: deletes the last key of `path` from its
   * parent object; stops without change when an intermediate value is
   * missing or is not a (non-null) object.
   */
  function RemoveByPath(obj: Doc, path: Path): (r: Doc)
    ensures path == [] ==> r == obj
    ensures path != [] ==> Get(r, path) == None
    decreases |path|
  {
    if path == [] then obj
    else if |path| == 1 then obj - {path[0]}
    else if path[0] in obj && obj[path[0]].Obj? then
      obj[path[0] := Obj(RemoveByPath(obj[path[0]].fields, path[1..]))]
    else
      GetStep(obj, path);
      obj
  }

  /**
   * `copyByPath(target, source, path)`: writes the source's value at `path`
   * into the target, replacing every target intermediate that is not an
   * object by `{}`; abandons the walk where a source intermediate is not an
   * object, and writes nothing when the source has no value at the leaf.
   */
  function CopyByPath(target: Doc, source: Doc, path: Path): (r: Doc)
    ensures path == [] ==> r == target
    ensures path != [] && Get(source, path).Some? ==> Get(r, path) == Get(source, path)
    decreases |path|
  {
    if path == [] then target
    else if |path| == 1 then
      (if path[0] in source then target[path[0] := source[path[0]]] else target)
    else if path[0] in source && source[path[0]].Obj? then
      var sub := if path[0] in target && target[path[0]].Obj? then target[path[0]].fields else map[];
      target[path[0] := Obj(CopyByPath(sub, source[path[0]].fields, path[1..]))]
    else
      GetStep(source, path);
      target
  }

  // ---------------------------------------------------------------------
  // removeByPath
  // ---------------------------------------------------------------------

  /** Removing `p` changes nothing at a path disjoint from `p`. */
  lemma {:induction false} RemoveFrame(d: Doc, p: Path, q: Path)
    requires Disjoint(p, q)
    ensures Get(RemoveByPath(d, p), q) == Get(d, q)
    decreases |p|
  {
    var k := p[0];
    if q[0] == k && |p| > 1 && k in d && d[k].Obj? {
      assert Disjoint(p[1..], q[1..]) by {
        assert p == [k] + p[1..] && q == [k] + q[1..];
      }
      RemoveFrame(d[k].fields, p[1..], q[1..]);
    }
  }

  /** Removing `p` never creates a value: what was absent stays absent. */
  lemma {:induction false} RemoveOnlyDeletes(d: Doc, p: Path, q: Path)
    requires Get(d, q) == None
    ensures Get(RemoveByPath(d, p), q) == None
    decreases |p|
  {
    if |p| > 1 && q != [] && q[0] == p[0] && p[0] in d && d[p[0]].Obj? {
      RemoveOnlyDeletes(d[p[0]].fields, p[1..], q[1..]);
    }
  }

  /**
   * Removing `p` deletes exactly the last key of `p` from its parent object,
   * which stays in place even when it becomes empty.
   */
  lemma {:induction false} RemoveParent(d: Doc, p: Path, m: map<string, Json>)
    requires p != [] && Get(d, p[..|p| - 1]) == Some(Obj(m))
    ensures Get(RemoveByPath(d, p), p[..|p| - 1]) == Some(Obj(m - {p[|p| - 1]}))
    decreases |p|
  {
    if |p| > 1 {
      var k, rest := p[0], p[1..];
      var parent := rest[..|rest| - 1];
      assert p[..|p| - 1] == [k] + parent;
      assert rest[|rest| - 1] == p[|p| - 1];
      GetPrepend(d, k, parent);
      assert d[k].Obj?;
      RemoveParent(d[k].fields, rest, m);
      GetPrepend(RemoveByPath(d, p), k, parent);
    }
  }

  /** Removing `p` keeps every ancestor of its parent, with the same keys. */
  lemma {:induction false} RemoveKeepsAncestors(d: Doc, p: Path, q: Path, m: map<string, Json>)
    requires p != [] && q < p[..|p| - 1] && Get(d, q) == Some(Obj(m))
    ensures exists m' :: Get(RemoveByPath(d, p), q) == Some(Obj(m')) && m'.Keys == m.Keys
    decreases |p|
  {
    var k, rest := p[0], p[1..];
    var r := RemoveByPath(d, p);
    var parent := rest[..|rest| - 1];
    assert p[..|p| - 1] == [k] + parent;
    if q == [] {
      assert Get(r, q) == Some(Obj(r)) && r.Keys == m.Keys;
    } else {
      assert q == [k] + q[1..];
      assert q[1..] < parent;
      GetPrepend(d, k, q[1..]);
      assert d[k].Obj?;
      RemoveKeepsAncestors(d[k].fields, rest, q[1..], m);
      GetPrepend(r, k, q[1..]);
    }
  }

  /** Removing a non-empty path is a no-op exactly when the document has no value there. */
  lemma {:induction false} RemoveNoOpIff(d: Doc, p: Path)
    requires p != []
    ensures RemoveByPath(d, p) == d <==> Get(d, p) == None
    decreases |p|
  {
    var k := p[0];
    GetStep(d, p);
    if |p| == 1 {
      if k !in d {
        assert d - {k} == d;
      }
    } else if k in d && d[k].Obj? {
      RemoveNoOpIff(d[k].fields, p[1..]);
      if Get(d, p) == None {
        assert d[k := Obj(d[k].fields)] == d;
      }
    }
  }

  /** Removing the same path twice is removing it once. */
  lemma RemoveIdempotent(d: Doc, p: Path)
    ensures RemoveByPath(RemoveByPath(d, p), p) == RemoveByPath(d, p)
  {
    if p != [] {
      RemoveNoOpIff(RemoveByPath(d, p), p);
    }
  }

  // ---------------------------------------------------------------------
  // copyByPath
  // ---------------------------------------------------------------------

  /** Copying along `p` changes nothing at a path disjoint from `p`. */
  lemma {:induction false} CopyFrame(t: Doc, s: Doc, p: Path, q: Path)
    requires Disjoint(p, q)
    ensures Get(CopyByPath(t, s, p), q) == Get(t, q)
    decreases |p|
  {
    var k := p[0];
    var r := CopyByPath(t, s, p);
    GetStep(r, q);
    GetStep(t, q);
    if q[0] == k {
      assert p == [k] + p[1..] && q == [k] + q[1..];
      assert Disjoint(p[1..], q[1..]);
      if k in s && s[k].Obj? {
        var sub := if k in t && t[k].Obj? then t[k].fields else map[];
        CopyFrame(sub, s[k].fields, p[1..], q[1..]);
      }
    }
  }

  /**
   * Every intermediate of `p` at which the source holds an object holds an
   * object in the target afterwards, even when the source has no value at
   * the leaf: a non-object there is replaced by `{}`.
   */
  lemma {:induction false} CopyContainers(t: Doc, s: Doc, p: Path, q: Path)
    requires q != [] && q < p && Get(s, q).Some? && Get(s, q).value.Obj?
    ensures Get(CopyByPath(t, s, p), q).Some? && Get(CopyByPath(t, s, p), q).value.Obj?
    decreases |p|
  {
    var k := p[0];
    var r := CopyByPath(t, s, p);
    assert q == p[..|q|];
    assert q[0] == k && q[1..] < p[1..];
    GetStep(s, q);
    GetStep(r, q);
    assert s[k].Obj?;
    if |q| > 1 {
      var sub := if k in t && t[k].Obj? then t[k].fields else map[];
      CopyContainers(sub, s[k].fields, p[1..], q[1..]);
    }
  }

  /**
   * Where a source intermediate of `p` is not an object (or is missing), the
   * copy is abandoned: nothing at or below it changes in the target.
   */
  lemma {:induction false} CopyAbandoned(t: Doc, s: Doc, p: Path, q: Path, q': Path)
    requires q != [] && q < p && !(Get(s, q).Some? && Get(s, q).value.Obj?) && q <= q'
    ensures Get(CopyByPath(t, s, p), q') == Get(t, q')
    decreases |p|
  {
    var k := p[0];
    var r := CopyByPath(t, s, p);
    assert q == p[..|q|] && q == q'[..|q|];
    assert q[0] == k && q'[0] == k && q[1..] < p[1..] && q[1..] <= q'[1..];
    GetStep(s, q);
    GetStep(r, q');
    GetStep(t, q');
    if k in s && s[k].Obj? {
      var sub := if k in t && t[k].Obj? then t[k].fields else map[];
      CopyAbandoned(sub, s[k].fields, p[1..], q[1..], q'[1..]);
    }
  }

  /**
   * Where the source has no value at `a` (a missing leaf, or a walk that
   * cannot reach it), nothing at or below `a` changes in the target.
   */
  lemma {:induction false} CopyMissingLeaf(t: Doc, s: Doc, a: Path, q: Path)
    requires a != [] && a <= q && Get(s, a) == None
    ensures Get(CopyByPath(t, s, a), q) == Get(t, q)
    decreases |a|
  {
    var k := a[0];
    var r := CopyByPath(t, s, a);
    assert a == q[..|a|];
    assert q[0] == k && a[1..] <= q[1..];
    GetStep(s, a);
    GetStep(r, q);
    GetStep(t, q);
    if |a| > 1 && k in s && s[k].Obj? {
      var sub := if k in t && t[k].Obj? then t[k].fields else map[];
      CopyMissingLeaf(sub, s[k].fields, a[1..], q[1..]);
    }
  }

  /**
   * Copying along `a` preserves agreement with the source: wherever the
   * target already holds what the source holds, it still does afterwards.
   */
  lemma {:induction false} CopyKeepsAgreement(t: Doc, s: Doc, a: Path, q: Path)
    requires Get(t, q) == Get(s, q)
    ensures Get(CopyByPath(t, s, a), q) == Get(s, q)
    decreases |a|
  {
    if q == [] {
      assert t == s;
      CopyOntoItself(s, a);
    } else if a != [] {
      var k := a[0];
      var r := CopyByPath(t, s, a);
      GetStep(r, q);
      GetStep(t, q);
      GetStep(s, q);
      if q[0] == k && |a| > 1 && k in s && s[k].Obj? {
        var sub := if k in t && t[k].Obj? then t[k].fields else map[];
        assert Get(sub, q[1..]) == Get(s[k].fields, q[1..]);
        CopyKeepsAgreement(sub, s[k].fields, a[1..], q[1..]);
      }
    }
  }

  /** Copying from a document onto itself changes nothing. */
  lemma {:induction false} CopyOntoItself(d: Doc, a: Path)
    ensures CopyByPath(d, d, a) == d
    decreases |a|
  {
    if |a| == 1 && a[0] in d {
      assert d[a[0] := d[a[0]]] == d;
    } else if |a| > 1 && a[0] in d && d[a[0]].Obj? {
      CopyOntoItself(d[a[0]].fields, a[1..]);
      assert d[a[0] := Obj(d[a[0]].fields)] == d;
    }
  }

  /** Copying the same path twice from the same source is copying it once. */
  lemma {:induction false} CopyIdempotent(t: Doc, s: Doc, p: Path)
    ensures CopyByPath(CopyByPath(t, s, p), s, p) == CopyByPath(t, s, p)
    decreases |p|
  {
    if |p| > 1 && p[0] in s && s[p[0]].Obj? {
      var k := p[0];
      var sub := if k in t && t[k].Obj? then t[k].fields else map[];
      CopyIdempotent(sub, s[k].fields, p[1..]);
    }
  }
}
