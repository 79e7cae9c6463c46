/** The JSONC printer: a configuration object with a generated comment above each known setting. */
module JsoncRender {
  import opened Base
  import opened Text
  import opened JsonValue
  import opened JsonPrint
  import opened Sorting

  datatype Setting = Setting(path: Text, purpose: Text)

  type Registry = seq<Setting>

  // ---------------------------------------------------------------- which keys are known, and their order

  function PathOf(prefix: Text, key: Text): Text {
    if prefix == [] then key else prefix + [DOT] + key
  }

  predicate Has(reg: Registry, path: Text) { exists s <- reg :: s.path == path }

  /** The purpose of the last setting registered under a path. */
  function Purpose(reg: Registry, path: Text): Text {
    if reg == [] then []
    else if reg[|reg| - 1].path == path then reg[|reg| - 1].purpose
    else Purpose(reg[..|reg| - 1], path)
  }

  function Decimal(n: nat): Text {
    (if n < 10 then [] else Decimal(n / 10)) + [0x30 + n % 10]
  }

  /** Some key below the value, at any depth, is a registered path. Array indices count as keys. */
  predicate HasKnownDescendant(reg: Registry, v: Value, prefix: Text) {
    match v
    case Obj(fields) =>
      exists i :: 0 <= i < |fields| &&
        var path := prefix + [DOT] + fields[i].key;
        Has(reg, path) || HasKnownDescendant(reg, fields[i].value, path)
    case Arr(items) =>
      exists i :: 0 <= i < |items| &&
        var path := prefix + [DOT] + Decimal(i);
        Has(reg, path) || HasKnownDescendant(reg, items[i], path)
    case _ => false
  }

  predicate IsKnown(reg: Registry, f: Field, prefix: Text) {
    var path := PathOf(prefix, f.key);
    Has(reg, path) || HasKnownDescendant(reg, f.value, path)
  }

  function IndexFrom(reg: Registry, path: Text, i: nat): nat
    requires i <= |reg|
    decreases |reg| - i
  {
    if i == |reg| || reg[i].path == path then i else IndexFrom(reg, path, i + 1)
  }

  function BelowFrom(reg: Registry, path: Text, i: nat): nat
    requires i <= |reg|
    decreases |reg| - i
  {
    if i == |reg| || path + [DOT] <= reg[i].path then i else BelowFrom(reg, path, i + 1)
  }

  /** The registry position of the path itself, else of the first path below it, else the end. */
  function EarliestIndex(reg: Registry, path: Text): nat {
    if IndexFrom(reg, path, 0) < |reg| then IndexFrom(reg, path, 0) else BelowFrom(reg, path, 0)
  }

  function Select(reg: Registry, fields: seq<Field>, prefix: Text, known: bool): (r: seq<Field>)
    ensures forall f <- r :: f in fields
  {
    if fields == [] then []
    else (if IsKnown(reg, fields[0], prefix) == known then [fields[0]] else []) + Select(reg, fields[1..], prefix, known)
  }

  /** Known fields come by registry position. */
  function IndexOrder(reg: Registry, prefix: Text): (Field, Field) -> bool {
    (f: Field, g: Field) => EarliestIndex(reg, PathOf(prefix, f.key)) < EarliestIndex(reg, PathOf(prefix, g.key))
  }

  /** Unknown fields come by key. */
  function KeyOrder(): (Field, Field) -> bool {
    (f: Field, g: Field) => TextLess(f.key, g.key)
  }

  /** The order in which the fields are printed: known first, then unknown; undefined ones are left out. */
  function Order(reg: Registry, fields: seq<Field>, prefix: Text): (r: seq<Field>)
    ensures forall f <- r :: f in fields && Defined(f)
  {
    var defined := DefinedFields(fields);
    var known := Sort(IndexOrder(reg, prefix), Select(reg, defined, prefix, true));
    var unknown := Sort(KeyOrder(), Select(reg, defined, prefix, false));
    assert forall f <- known :: f in multiset(known);
    assert forall f <- unknown :: f in multiset(unknown);
    known + unknown
  }

  lemma {:induction false} SelectSplits(reg: Registry, fields: seq<Field>, prefix: Text)
    ensures multiset(Select(reg, fields, prefix, true)) + multiset(Select(reg, fields, prefix, false)) == multiset(fields)
  {
    if fields != [] {
      SelectSplits(reg, fields[1..], prefix);
      assert fields == [fields[0]] + fields[1..];
    }
  }

  /** Every defined key is printed exactly once, and nothing else is. */
  lemma OrderPermutes(reg: Registry, fields: seq<Field>, prefix: Text)
    ensures multiset(Order(reg, fields, prefix)) == multiset(DefinedFields(fields))
  {
    SelectSplits(reg, DefinedFields(fields), prefix);
  }

  // ---------------------------------------------------------------- the printed text

  function Indent(n: nat): Text {
    if n == 0 then [] else [SPACE, SPACE] + Indent(n - 1)
  }

  /** What comes before a key: the comment line of a known setting, then a new indented line. With
      `comments` false, what is left of it once comments are stripped. */
  function LinePrefix(reg: Registry, path: Text, depth: nat, comments: bool): Text {
    if !Has(reg, path) then [LF] + Indent(depth)
    else if comments then [LF] + (Indent(depth) + ([SLASH, SLASH, SPACE] + (Purpose(reg, path) + ([LF] + Indent(depth)))))
    else [LF] + (Indent(depth) + ([LF] + Indent(depth)))
  }

  function RenderValue(reg: Registry, v: Value, path: Text, depth: nat, comments: bool): Text
    decreases v, 1, 0
  {
    if v.Obj? then
      if v.fields == [] then [OPEN_BRACE, CLOSE_BRACE] else RenderObject(reg, v.fields, path, depth, comments)
    else Stringify(Clean(v))
  }

  function RenderObject(reg: Registry, fields: seq<Field>, prefix: Text, depth: nat, comments: bool): Text
    decreases Obj(fields), 0, |Order(reg, fields, prefix)| + 1
  {
    [OPEN_BRACE] + (RenderFields(reg, fields, Order(reg, fields, prefix), 0, prefix, depth, comments)
                    + ([LF] + (Indent(depth) + [CLOSE_BRACE])))
  }

  /** The lines of the fields from position i of the print order on. */
  function RenderFields(reg: Registry, fields: seq<Field>, order: seq<Field>, i: nat, prefix: Text, depth: nat, comments: bool): Text
    requires i <= |order| && forall f <- order :: f in fields
    decreases Obj(fields), 0, |order| - i
  {
    if i == |order| then []
    else
      var path := PathOf(prefix, order[i].key);
      assert order[i] in fields;
      LinePrefix(reg, path, depth + 1, comments)
      + (Quote(order[i].key)
         + ([COLON, SPACE]
            + (RenderValue(reg, order[i].value, path, depth + 1, comments)
               + (Separator(i + 1 < |order|)
                  + RenderFields(reg, fields, order, i + 1, prefix, depth, comments)))))
  }

  function RenderConfig(reg: Registry, fields: seq<Field>, comments: bool): Text {
    RenderObject(reg, fields, [], 0, comments) + [LF]
  }

  // ---------------------------------------------------------------- the value that is printed

  /** The value as it appears in the printed text: keys in print order, undefined parts gone. */
  function Printed(reg: Registry, v: Value, path: Text): (r: Value)
    ensures r.Undefined? <==> v.Undefined?
    ensures r.Obj? <==> v.Obj?
    decreases v, 1
  {
    if v.Obj? then Obj(PrintedFields(reg, v.fields, path)) else Clean(v)
  }

  function PrintedFields(reg: Registry, fields: seq<Field>, prefix: Text): seq<Field>
    decreases Obj(fields), 0
  {
    var order := Order(reg, fields, prefix);
    seq(|order|, i requires 0 <= i < |order| =>
      assert order[i] in fields;
      Field(order[i].key, Printed(reg, order[i].value, PathOf(prefix, order[i].key))))
  }
}
