/** JavaScript configuration values with the key order of their objects. */
module JsonValue {
  import opened Base
  import opened Text
  import CT = ConfigTree

  datatype Value =
    | Undefined
    | Null
    | Bool(b: bool)
    | Num(token: Text)
    | Str(s: Text)
    | Arr(items: seq<Value>)
    | Obj(fields: seq<Field>)

  datatype Field = Field(key: Text, value: Value)

  predicate IsNumberUnit(u: Unit) {
    IsDigit(u) || u == PLUS || u == MINUS || u == DOT || u == LOWER_E || u == UPPER_E
  }

  function DropDigits(t: Text): (r: Text)
    ensures |r| <= |t|
  {
    if t != [] && IsDigit(t[0]) then DropDigits(t[1..]) else t
  }

  predicate StartsWithDigit(t: Text) { t != [] && IsDigit(t[0]) }

  predicate IsExponent(t: Text) {
    t == [] ||
    ((t[0] == LOWER_E || t[0] == UPPER_E) &&
     var digits := if |t| > 1 && (t[1] == PLUS || t[1] == MINUS) then t[2..] else t[1..];
     StartsWithDigit(digits) && DropDigits(digits) == [])
  }

  predicate IsFraction(t: Text) {
    if t != [] && t[0] == DOT then StartsWithDigit(t[1..]) && IsExponent(DropDigits(t[1..]))
    else IsExponent(t)
  }

  /** The number grammar of section 6 of RFC 8259; a number is otherwise the opaque token it prints as. */
  predicate IsNumber(t: Text) {
    && (forall u <- t :: IsNumberUnit(u))
    && var body := if t != [] && t[0] == MINUS then t[1..] else t;
       StartsWithDigit(body) && IsFraction(if body[0] == ZERO then body[1..] else DropDigits(body))
  }

  /** No key occurs twice. */
  predicate DistinctKeys(fields: seq<Field>) {
    forall i, j :: 0 <= i < j < |fields| ==> fields[i].key != fields[j].key
  }

  /** The values a configuration can hold: the keys of an object are distinct. */
  predicate WellFormed(v: Value) {
    match v
    case Arr(items) => forall i :: 0 <= i < |items| ==> WellFormed(items[i])
    case Obj(fields) => DistinctKeys(fields) && forall i :: 0 <= i < |fields| ==> WellFormed(fields[i].value)
    case _ => true
  }

  predicate Defined(f: Field) { !f.value.Undefined? }

  function DefinedFields(fields: seq<Field>): (r: seq<Field>)
    ensures forall f <- r :: f in fields && Defined(f)
    ensures forall f <- fields :: Defined(f) ==> f in r
  {
    if fields == [] then []
    else (if Defined(fields[0]) then [fields[0]] else []) + DefinedFields(fields[1..])
  }

  /** What survives JSON: undefined fields are dropped; undefined array items, and numbers that are not JSON
      numbers (NaN and the infinities), become null. */
  function Clean(v: Value): (r: Value)
    ensures r.Undefined? <==> v.Undefined?
    ensures r.Obj? <==> v.Obj?
  {
    match v
    case Num(t) => if IsNumber(t) then v else Null
    case Arr(items) => Arr(seq(|items|, i requires 0 <= i < |items| => if items[i].Undefined? then Null else Clean(items[i])))
    case Obj(fields) =>
      var d := DefinedFields(fields);
      Obj(seq(|d|, i requires 0 <= i < |d| => assert d[i] in d; Field(d[i].key, Clean(d[i].value))))
    case _ => v
  }

  /** The value with key order forgotten. */
  function ToTree(v: Value): CT.Tree {
    match v
    case Undefined => CT.Undefined
    case Null => CT.Null
    case Bool(b) => CT.Bool(b)
    case Num(t) => CT.Num(t)
    case Str(s) => CT.Str(s)
    case Arr(items) => CT.Arr(seq(|items|, i requires 0 <= i < |items| => ToTree(items[i])))
    case Obj(fields) => CT.Obj(ToMap(fields, |fields|))
  }

  /** The first n fields as a map; of two equal keys the later one wins. */
  function ToMap(fields: seq<Field>, n: nat): map<Text, CT.Tree>
    requires n <= |fields|
    decreases Obj(fields), n
  {
    if n == 0 then map[]
    else ToMap(fields, n - 1)[fields[n - 1].key := ToTree(fields[n - 1].value)]
  }
}
