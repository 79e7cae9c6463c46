/** How a rendered configuration is laid out: the order of its keys, and the comment above each setting. */
module JsoncLayout {
  import opened Base
  import opened Text
  import opened JsonValue
  import opened JsonPrint
  import opened JsonRoundTrip
  import opened JsoncRender
  import opened Sorting
  import opened JsoncRenderer

  // ---------------------------------------------------------------- registry positions

  /** A key's position is that of its own setting, else of the first setting below it, else the end. */
  lemma EarliestIndexMeans(reg: Registry, path: Text)
    ensures
      var n := EarliestIndex(reg, path);
      && n <= |reg|
      && (Has(reg, path) ==> n < |reg| && reg[n].path == path && forall i :: 0 <= i < n ==> reg[i].path != path)
      && (!Has(reg, path) && n < |reg| ==> path + [DOT] <= reg[n].path)
      && (!Has(reg, path) ==> forall i :: 0 <= i < n ==> !(path + [DOT] <= reg[i].path))
  {
    IndexFromMeans(reg, path, 0);
    BelowFromMeans(reg, path, 0);
    if Has(reg, path) {
      var s :| s in reg && s.path == path;
      var i :| 0 <= i < |reg| && reg[i] == s;
    }
  }

  lemma {:induction false} IndexFromMeans(reg: Registry, path: Text, i: nat)
    requires i <= |reg|
    ensures var n := IndexFrom(reg, path, i); i <= n <= |reg| && (n < |reg| ==> reg[n].path == path)
    ensures forall j :: i <= j < IndexFrom(reg, path, i) ==> reg[j].path != path
    decreases |reg| - i
  {
    if i < |reg| && reg[i].path != path { IndexFromMeans(reg, path, i + 1); }
  }

  lemma {:induction false} BelowFromMeans(reg: Registry, path: Text, i: nat)
    requires i <= |reg|
    ensures var n := BelowFrom(reg, path, i); i <= n <= |reg| && (n < |reg| ==> path + [DOT] <= reg[n].path)
    ensures forall j :: i <= j < BelowFrom(reg, path, i) ==> !(path + [DOT] <= reg[j].path)
    decreases |reg| - i
  {
    if i < |reg| && !(path + [DOT] <= reg[i].path) { BelowFromMeans(reg, path, i + 1); }
  }

  // ---------------------------------------------------------------- the order of the keys

  lemma IndexOrderIsOrder(reg: Registry, prefix: Text)
    ensures IsOrder(IndexOrder(reg, prefix))
  {
    hide EarliestIndex;
  }

  lemma KeyOrderIsOrder()
    ensures IsOrder(KeyOrder())
  {
    forall f: Field, g: Field ensures !(KeyOrder()(f, g) && KeyOrder()(g, f)) { LessIsTotal(f.key, g.key); }
    forall f: Field, g: Field, h: Field | !KeyOrder()(g, f) && !KeyOrder()(h, g) ensures !KeyOrder()(h, f) {
      NotLess(f.key, g.key, h.key);
    }
  }

  lemma {:induction false} SelectedAre(reg: Registry, fields: seq<Field>, prefix: Text, known: bool)
    ensures forall f <- Select(reg, fields, prefix, known) :: IsKnown(reg, f, prefix) == known
  {
    if fields != [] { SelectedAre(reg, fields[1..], prefix, known); }
  }

  /** The first k keys are those with a registered setting at or below them, by registry position; the others
      follow in code unit order. */
  lemma KeysAreOrdered(reg: Registry, fields: seq<Field>, prefix: Text) returns (k: nat)
    ensures
      var order := Order(reg, fields, prefix);
      && k <= |order|
      && (forall f <- order[..k] :: IsKnown(reg, f, prefix)) && Sorted(IndexOrder(reg, prefix), order[..k])
      && (forall f <- order[k..] :: !IsKnown(reg, f, prefix)) && Sorted(KeyOrder(), order[k..])
  {
    var defined := DefinedFields(fields);
    var known := Sort(IndexOrder(reg, prefix), Select(reg, defined, prefix, true));
    var unknown := Sort(KeyOrder(), Select(reg, defined, prefix, false));
    k := |known|;
    assert Order(reg, fields, prefix) == known + unknown;
    assert (known + unknown)[..k] == known && (known + unknown)[k..] == unknown;
    IndexOrderIsOrder(reg, prefix);
    KeyOrderIsOrder();
    SortSorts(IndexOrder(reg, prefix), Select(reg, defined, prefix, true));
    SortSorts(KeyOrder(), Select(reg, defined, prefix, false));
    SelectedAre(reg, defined, prefix, true);
    SelectedAre(reg, defined, prefix, false);
    forall f <- known ensures IsKnown(reg, f, prefix) { assert f in multiset(known); }
    forall f <- unknown ensures !IsKnown(reg, f, prefix) { assert f in multiset(unknown); }
  }

  // ---------------------------------------------------------------- the comments

  /** No path is registered twice. */
  predicate DistinctPaths(reg: Registry) { forall i, j :: 0 <= i < j < |reg| ==> reg[i].path != reg[j].path }

  lemma {:induction false} PurposeIs(reg: Registry, i: nat)
    requires DistinctPaths(reg) && i < |reg|
    ensures Purpose(reg, reg[i].path) == reg[i].purpose
  {
    if i < |reg| - 1 { PurposeIs(reg[..|reg| - 1], i); }
  }

  lemma {:induction false} IndentIs(n: nat)
    ensures |Indent(n)| == 2 * n && forall u <- Indent(n) :: u == 0x20
  {
    if n > 0 { IndentIs(n - 1); }
  }

  /** The text of an object: for each field in print order its lines, a comma after all but the last; then the
      closing brace on a line of its own. A field stands on a line of its own, two spaces for each level, below the
      comment line of its setting if it has one; `{}` stands for an empty object; other values are as JSON.stringify
      prints them, with undefined parts left out. */
  lemma LayoutIs(reg: Registry, fields: seq<Field>, i: nat, prefix: Text, depth: nat, v: Value)
    requires i < |Order(reg, fields, prefix)|
    ensures
      var order := Order(reg, fields, prefix);
      var f, path, line := order[i], PathOf(prefix, order[i].key), [0x0A] + Indent(depth + 1);
      && RenderFields(reg, fields, order, i, prefix, depth, true) ==
           (if Has(reg, path) then line + ([0x2F, 0x2F, 0x20] + Purpose(reg, path)) else [])
           + (line + (Quote(f.key) + ([0x3A, 0x20] + (RenderValue(reg, f.value, path, depth + 1, true)
           + ((if i + 1 < |order| then [0x2C] else []) + RenderFields(reg, fields, order, i + 1, prefix, depth, true))))))
      && RenderObject(reg, fields, prefix, depth, true) ==
           [0x7B] + (RenderFields(reg, fields, order, 0, prefix, depth, true) + ([0x0A] + (Indent(depth) + [0x7D])))
    ensures v.Obj? && v.fields == [] ==> RenderValue(reg, v, prefix, depth, true) == [0x7B, 0x7D]
    ensures v.Obj? && v.fields != [] ==> RenderValue(reg, v, prefix, depth, true) == RenderObject(reg, v.fields, prefix, depth, true)
    ensures !v.Obj? ==> RenderValue(reg, v, prefix, depth, true) == Stringify(Clean(v))
  {
    var order := Order(reg, fields, prefix);
    var path := PathOf(prefix, order[i].key);
    assert order[i] in fields;
    LineOf(Indent(depth + 1), Purpose(reg, path),
           Quote(order[i].key) + ([COLON, SPACE] + (RenderValue(reg, order[i].value, path, depth + 1, true)
           + (Separator(i + 1 < |order|) + RenderFields(reg, fields, order, i + 1, prefix, depth, true)))));
  }

  lemma LineOf(indent: Text, purpose: Text, rest: Text)
    ensures [LF] + (indent + ([SLASH, SLASH, SPACE] + (purpose + ([LF] + indent)))) + rest ==
              (([LF] + indent) + ([SLASH, SLASH, SPACE] + purpose)) + (([LF] + indent) + rest)
    ensures [LF] + indent + rest == [] + (([LF] + indent) + rest)
  {
  }

  /** A comment line with this purpose, and on the next line the key. */
  function Commented(purpose: Text, depth: nat, key: Text): Text {
    [LF] + (Indent(depth) + ([SLASH, SLASH, SPACE] + (purpose + ([LF] + (Indent(depth) + (Quote(key) + [COLON]))))))
  }

  lemma {:induction false} FieldStands(reg: Registry, fields: seq<Field>, order: seq<Field>, i: nat, j: nat, prefix: Text, depth: nat)
      returns (before: Text, after: Text)
    requires i <= j < |order| && forall f <- order :: f in fields
    ensures
      RenderFields(reg, fields, order, i, prefix, depth, true) ==
        before + (FieldText(reg, order[j], prefix, depth, j + 1 < |order|) + after)
    decreases j - i
  {
    hide *;
    RenderFieldsStep(reg, fields, order, i, prefix, depth);
    if i == j {
      before, after := [], RenderFields(reg, fields, order, i + 1, prefix, depth, true);
      AppendNothing(FieldText(reg, order[j], prefix, depth, j + 1 < |order|) + after);
    } else {
      var b, a := FieldStands(reg, fields, order, i + 1, j, prefix, depth);
      var first := FieldText(reg, order[i], prefix, depth, true);
      Assoc(first, b, FieldText(reg, order[j], prefix, depth, j + 1 < |order|) + a);
      before, after := first + b, a;
    }
  }

  /** The text of a part stands inside the text of the whole. */
  lemma Inside(before: Text, part: Text, after: Text, x: Text, c: Text, y: Text)
    requires part == x + (c + y)
    ensures before + (part + after) == (before + x) + (c + (y + after))
  {
    Assoc(x, c + y, after);
    Assoc(c, y, after);
    Assoc(before, x, c + (y + after));
  }

  lemma FieldInObject(reg: Registry, fields: seq<Field>, j: nat, prefix: Text, depth: nat) returns (before: Text, after: Text)
    requires j < |Order(reg, fields, prefix)|
    ensures
      var order := Order(reg, fields, prefix);
      RenderObject(reg, fields, prefix, depth, true) ==
        before + (FieldText(reg, order[j], prefix, depth, j + 1 < |order|) + after)
  {
    var order := Order(reg, fields, prefix);
    var b, a := FieldStands(reg, fields, order, 0, j, prefix, depth);
    var close := [LF] + (Indent(depth) + [CLOSE_BRACE]);
    var field := FieldText(reg, order[j], prefix, depth, j + 1 < |order|);
    Inside([OPEN_BRACE], RenderFields(reg, fields, order, 0, prefix, depth, true), close, b, field, a);
    before, after := [OPEN_BRACE] + b, a + close;
  }

  /** The object has a field with the first key, which is not undefined; below it the next key, and so on. */
  ghost predicate HasField(fields: seq<Field>, keys: seq<Text>)
    decreases |keys|
  {
    && keys != []
    && exists f <- fields ::
         (f.key == keys[0] && Defined(f) && (|keys| > 1 ==> f.value.Obj? && HasField(f.value.fields, keys[1..])))
  }

  /** The path of these keys below a prefix. */
  function Dotted(prefix: Text, keys: seq<Text>): Text
    requires keys != []
    decreases |keys|
  {
    if |keys| == 1 then PathOf(prefix, keys[0]) else Dotted(PathOf(prefix, keys[0]), keys[1..])
  }

  lemma PrintedAt(reg: Registry, fields: seq<Field>, prefix: Text, f: Field) returns (j: nat)
    requires f in fields && Defined(f)
    ensures j < |Order(reg, fields, prefix)| && Order(reg, fields, prefix)[j] == f
  {
    OrderPermutes(reg, fields, prefix);
    assert f in multiset(Order(reg, fields, prefix));
    j :| 0 <= j < |Order(reg, fields, prefix)| && Order(reg, fields, prefix)[j] == f;
  }

  lemma {:induction false} CommentedBelow(reg: Registry, fields: seq<Field>, keys: seq<Text>, n: nat, prefix: Text, depth: nat)
      returns (before: Text, after: Text)
    requires DistinctPaths(reg) && n < |reg| && HasField(fields, keys) && reg[n].path == Dotted(prefix, keys)
    ensures
      RenderObject(reg, fields, prefix, depth, true) ==
        before + (Commented(reg[n].purpose, depth + |keys|, keys[|keys| - 1]) + after)
    decreases |keys|
  {
    hide RenderObject, RenderValue, Order, FieldText, Commented, Purpose, PathOf, Defined;
    var f :| f in fields && f.key == keys[0] && Defined(f)
             && (|keys| > 1 ==> f.value.Obj? && HasField(f.value.fields, keys[1..]));
    var j := PrintedAt(reg, fields, prefix, f);
    var path, more := PathOf(prefix, f.key), j + 1 < |Order(reg, fields, prefix)|;
    var b, a := FieldInObject(reg, fields, j, prefix, depth);
    var b', a';
    if |keys| == 1 {
      PurposeIs(reg, n);
      assert reg[n] in reg && Has(reg, path);
      b', a' := [], [SPACE] + (RenderValue(reg, f.value, path, depth + 1, true) + Separator(more));
      FieldOpens(reg, f, prefix, depth, reg[n].purpose, more, a');
      AppendNothing(Commented(reg[n].purpose, depth + 1, f.key) + a');
    } else {
      var x, y := CommentedBelow(reg, f.value.fields, keys[1..], n, path, depth + 1);
      b', a' := NestedIn(reg, f, prefix, depth, more, x, Commented(reg[n].purpose, depth + |keys|, keys[|keys| - 1]), y);
    }
    Inside(b, FieldText(reg, f, prefix, depth, more), a, b', Commented(reg[n].purpose, depth + |keys|, keys[|keys| - 1]), a');
    before, after := b + b', a' + a;
  }

  lemma NestedIn(reg: Registry, f: Field, prefix: Text, depth: nat, more: bool, x: Text, c: Text, y: Text)
      returns (before: Text, after: Text)
    requires f.value.Obj? && f.value.fields != []
    requires RenderObject(reg, f.value.fields, PathOf(prefix, f.key), depth + 1, true) == x + (c + y)
    ensures FieldText(reg, f, prefix, depth, more) == before + (c + after)
  {
    hide Has, Indent, Quote;
    var path := PathOf(prefix, f.key);
    var value := RenderValue(reg, f.value, path, depth + 1, true);
    var line, key := LinePrefix(reg, path, depth + 1, true), Quote(f.key);
    Assoc([COLON, SPACE], value, Separator(more));
    Assoc(line, key, [COLON, SPACE] + (value + Separator(more)));
    Assoc(line + key, [COLON, SPACE], value + Separator(more));
    Inside((line + key) + [COLON, SPACE], value, Separator(more), x, c, y);
    before, after := ((line + key) + [COLON, SPACE]) + x, y + Separator(more);
  }

  /** Every setting of the configuration that has a defined value, at any depth, stands in the file with the
      setting's purpose on the line above its key, both indented by the setting's depth. */
  lemma SettingIsCommented(reg: Registry, fields: seq<Field>, keys: seq<Text>, n: nat) returns (before: Text, after: Text)
    requires DistinctPaths(reg) && n < |reg| && HasField(fields, keys) && reg[n].path == Dotted([], keys)
    ensures RenderConfig(reg, fields, true) == before + (Commented(reg[n].purpose, |keys|, keys[|keys| - 1]) + after)
  {
    var b, a := CommentedBelow(reg, fields, keys, n, [], 0);
    var c := Commented(reg[n].purpose, |keys|, keys[|keys| - 1]);
    before, after := b, a + [LF];
    Assoc(b, c + a, [LF]);
    Assoc(c, a, [LF]);
  }

  lemma FieldOpens(reg: Registry, f: Field, prefix: Text, depth: nat, purpose: Text, more: bool, rest: Text)
    requires Has(reg, PathOf(prefix, f.key)) && purpose == Purpose(reg, PathOf(prefix, f.key))
    requires rest == [SPACE] + (RenderValue(reg, f.value, PathOf(prefix, f.key), depth + 1, true) + Separator(more))
    ensures FieldText(reg, f, prefix, depth, more) == Commented(purpose, depth + 1, f.key) + rest
  {
    hide Purpose, Has, RenderValue, Indent, Quote;
    var q, ind := Quote(f.key), Indent(depth + 1);
    var value := RenderValue(reg, f.value, PathOf(prefix, f.key), depth + 1, true) + Separator(more);
    assert [COLON, SPACE] + value == [COLON] + rest;
    Assoc(q, [COLON], rest);
    Assoc(ind, q + [COLON], rest);
    Assoc([LF], ind + (q + [COLON]), rest);
    Assoc(purpose, [LF] + (ind + (q + [COLON])), rest);
    Assoc([SLASH, SLASH, SPACE], purpose + ([LF] + (ind + (q + [COLON]))), rest);
    Assoc(ind, [SLASH, SLASH, SPACE] + (purpose + ([LF] + (ind + (q + [COLON])))), rest);
    Assoc([LF], ind + ([SLASH, SLASH, SPACE] + (purpose + ([LF] + (ind + (q + [COLON]))))), rest);
    var tail := q + ([COLON] + rest);
    Assoc([LF], ind, tail);
    Assoc(purpose, [LF] + ind, tail);
    Assoc([SLASH, SLASH, SPACE], purpose + ([LF] + ind), tail);
    Assoc(ind, [SLASH, SLASH, SPACE] + (purpose + ([LF] + ind)), tail);
    Assoc([LF], ind + ([SLASH, SLASH, SPACE] + (purpose + ([LF] + ind))), tail);
  }
}
