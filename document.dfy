/**
 * The parsed manifest document that package-ignore edits: a JSON value whose
 * objects are walked key by key. A JSON array is represented as an object
 * keyed by its decimal indices, which is how the property accesses of
 * bin/index.cjs see it.
 */
module Document {
  import opened Wrappers

  /** A JSON value. Numbers are kept as reals; they are only ever copied. */
  datatype Json =
    | Obj(fields: map<string, Json>)
    | Null
    | Bool(b: bool)
    | Num(n: real)
    | Str(s: string)

  /** A document whose top level is an object, as `package.json` is. */
  type Doc = map<string, Json>

  /** A key path: the keys to walk, outermost first. */
  type Path = seq<string>

  /** The value reached from `v` by walking `p` through objects, if any. */
  function At(v: Json, p: Path): Option<Json>
    decreases |p|
  {
    if p == [] then Some(v)
    else if v.Obj? && p[0] in v.fields then At(v.fields[p[0]], p[1..])
    else None
  }

  /** The value at path `p` of document `d`; the empty path names the whole document. */
  function Get(d: Doc, p: Path): Option<Json> {
    At(Obj(d), p)
  }

  /** One step of a walk from the top of a document. */
  lemma GetStep(d: Doc, p: Path)
    requires p != []
    ensures Get(d, p) == if p[0] in d then At(d[p[0]], p[1..]) else None
  {
  }

  /** One step of a walk from the top of a document, for a path given as first key and rest. */
  lemma GetPrepend(d: Doc, k: string, q: Path)
    ensures Get(d, [k] + q) == if k in d then At(d[k], q) else None
  {
    assert ([k] + q)[0] == k && ([k] + q)[1..] == q;
  }

  /** Neither path is a prefix of the other: they name disjoint parts of a document. */
  predicate Disjoint(p: Path, q: Path) {
    !(p <= q) && !(q <= p)
  }

  /** Walking `p + r` is walking `p`, then `r` from where `p` led. */
  lemma {:induction false} AtAppend(v: Json, p: Path, r: Path)
    ensures At(v, p + r) == if At(v, p).Some? then At(At(v, p).value, r) else None
    decreases |p|
  {
    if p == [] {
      assert p + r == r;
    } else {
      assert (p + r)[0] == p[0] && (p + r)[1..] == p[1..] + r;
      if v.Obj? && p[0] in v.fields {
        AtAppend(v.fields[p[0]], p[1..], r);
      }
    }
  }

  /** Two documents that agree at `p` agree everywhere below `p`. */
  lemma AgreeBelow(a: Doc, b: Doc, p: Path, r: Path)
    requires Get(a, p) == Get(b, p)
    ensures Get(a, p + r) == Get(b, p + r)
  {
    AtAppend(Obj(a), p, r);
    AtAppend(Obj(b), p, r);
  }
}
