/** Configuration values with key order forgotten: what the delta engine compares and merges. */
module ConfigTree {
  import opened Base
  import opened Text

  datatype Tree =
    | Undefined
    | Null
    | Bool(b: bool)
    | Num(token: Text)
    | Str(s: Text)
    | Arr(items: seq<Tree>)
    | Obj(fields: map<Text, Tree>)

  type Path = seq<Text>

  /** The value at a path of object keys. */
  function Get(t: Tree, p: Path): Option<Tree>
    decreases |p|
  {
    if p == [] then Some(t)
    else if t.Obj? && p[0] in t.fields then Get(t.fields[p[0]], p[1..])
    else None
  }

  /** The fields of an object, or of `{}` when there is no object at the key. */
  function Section(m: map<Text, Tree>, k: Text): map<Text, Tree> {
    if k in m && m[k].Obj? then m[k].fields else map[]
  }

  function Lookup(m: map<Text, Tree>, k: Text): Option<Tree> {
    if k in m then Some(m[k]) else None
  }

  lemma SameMap(a: map<Text, Tree>, b: map<Text, Tree>)
    requires forall k :: Lookup(a, k) == Lookup(b, k)
    ensures a == b
  {
    forall k ensures k in a <==> k in b { assert Lookup(a, k) == Lookup(b, k); }
    forall k | k in a ensures a[k] == b[k] { assert Lookup(a, k) == Lookup(b, k); }
  }
}
