/** What survives when a configuration tree goes through a file. */
module ConfigFiles {
  import opened Base
  import opened Text
  import opened ConfigTree
  import JsonValue

  type Config = map<Text, Tree>

  /** What survives a file: undefined fields are dropped; undefined array items and numbers that are not JSON
      numbers become null. */
  function Stored(t: Tree): (r: Tree)
    ensures r.Obj? <==> t.Obj?
    ensures r.Undefined? <==> t.Undefined?
  {
    match t
    case Num(token) => if JsonValue.IsNumber(token) then t else Null
    case Arr(items) =>
      Arr(seq(|items|, i requires 0 <= i < |items| => if items[i].Undefined? then Null else Stored(items[i])))
    case Obj(m) => Obj(map k | k in m && !m[k].Undefined? :: Stored(m[k]))
    case _ => t
  }

  function StoredConfig(m: Config): Config { Stored(Obj(m)).fields }

  /** Nothing in the tree is undefined, and every number is a JSON number. */
  predicate Json(t: Tree) {
    match t
    case Undefined => false
    case Num(token) => JsonValue.IsNumber(token)
    case Arr(items) => forall i :: 0 <= i < |items| ==> Json(items[i])
    case Obj(m) => forall k <- m :: Json(m[k])
    case _ => true
  }

  lemma {:induction false} StoredOfJson(t: Tree)
    requires Json(t)
    ensures Stored(t) == t
  {
    match t
    case Arr(items) =>
      forall i | 0 <= i < |items| ensures Stored(t).items[i] == items[i] { StoredOfJson(items[i]); }
      assert Stored(t).items == items;
    case Obj(m) =>
      forall k | k in m ensures k in Stored(t).fields && Stored(t).fields[k] == m[k] { StoredOfJson(m[k]); }
      assert Stored(t).fields == m;
    case _ =>
  }

  /** Storing, path by path. */
  function StoredOption(t: Option<Tree>): Option<Tree> {
    if t.None? || t.value.Undefined? then None else Some(Stored(t.value))
  }

  lemma {:induction false} GetStored(m: Config, p: Path)
    requires p != []
    ensures Get(Obj(StoredConfig(m)), p) == StoredOption(Get(Obj(m), p))
    decreases |p|
  {
    if p[0] in m && m[p[0]].Obj? && |p| > 1 {
      GetStored(m[p[0]].fields, p[1..]);
    }
  }
}
