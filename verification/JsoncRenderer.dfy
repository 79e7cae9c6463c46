/** The line-by-line renderer: it pushes lines, splices in the lines of nested objects, and joins them.
    It computes the text JsoncRender defines. */
module JsoncRenderer {
  import opened Base
  import opened Text
  import opened JsonValue
  import opened JsonPrint
  import opened JsonRoundTrip
  import opened JsoncRender
  import opened Sorting

  function FirstBreak(s: Text, i: nat): (r: nat)
    requires i <= |s|
    ensures i <= r <= |s| && (r < |s| ==> s[r] == LF)
    ensures forall k :: i <= k < r ==> s[k] != LF
    decreases |s| - i
  {
    if i == |s| || s[i] == LF then i else FirstBreak(s, i + 1)
  }

  /** text.split("\n") */
  function Split(s: Text): (r: seq<Text>)
    ensures r != []
  {
    var n := FirstBreak(s, 0);
    if n == |s| then [s] else [s[..n]] + Split(s[n + 1..])
  }

  /** Splitting into lines and joining them again changes nothing. */
  lemma {:induction false} JoinSplit(s: Text)
    ensures Join(Split(s), [LF]) == s
    decreases |s|
  {
    hide *;
    var n := FirstBreak(s, 0);
    SplitCons(s);
    if n < |s| {
      JoinSplit(s[n + 1..]);
      JoinCons(s[..n], Split(s[n + 1..]), [LF]);
      assert s[..n] + ([LF] + s[n + 1..]) == s;
    }
  }

  lemma SplitCons(s: Text)
    ensures
      var n := FirstBreak(s, 0);
      if n < |s| then s[n] == LF && Split(s[n + 1..]) != [] && Split(s) == [s[..n]] + Split(s[n + 1..])
      else Join(Split(s), [LF]) == s
  {
  }

  lemma SplitHasTwo(s: Text)
    requires LF in s
    ensures |Split(s)| >= 2
  {
  }

  lemma {:induction false} DefinedAppend(fields: seq<Field>, f: Field)
    ensures DefinedFields(fields + [f]) == DefinedFields(fields) + if Defined(f) then [f] else []
  {
    var tail := if Defined(f) then [f] else [];
    if fields == [] {
      assert fields + [f] == [f] && [f][1..] == [];
      assert tail + [] == [] + tail;
    } else {
      DefinedAppend(fields[1..], f);
      assert (fields + [f])[1..] == fields[1..] + [f];
      Assoc(if Defined(fields[0]) then [fields[0]] else [], DefinedFields(fields[1..]), tail);
    }
  }

  lemma {:induction false} SelectAppend(reg: Registry, fields: seq<Field>, f: Field, prefix: Text, known: bool)
    ensures Select(reg, fields + [f], prefix, known) ==
              Select(reg, fields, prefix, known) + if IsKnown(reg, f, prefix) == known then [f] else []
  {
    var tail := if IsKnown(reg, f, prefix) == known then [f] else [];
    if fields == [] {
      assert fields + [f] == [f] && [f][1..] == [];
      assert tail + [] == [] + tail;
    } else {
      SelectAppend(reg, fields[1..], f, prefix, known);
      assert (fields + [f])[1..] == fields[1..] + [f];
      Assoc(if IsKnown(reg, fields[0], prefix) == known then [fields[0]] else [],
            Select(reg, fields[1..], prefix, known), tail);
    }
  }

  lemma SplitStep(reg: Registry, obj: seq<Field>, i: nat, prefix: Text, known: bool)
    requires i < |obj|
    ensures
      Select(reg, DefinedFields(obj[..i + 1]), prefix, known) ==
        if Defined(obj[i]) && IsKnown(reg, obj[i], prefix) == known then Select(reg, DefinedFields(obj[..i]), prefix, known) + [obj[i]]
        else Select(reg, DefinedFields(obj[..i]), prefix, known)
  {
    hide *;
    assert obj[..i + 1] == obj[..i] + [obj[i]];
    DefinedAppend(obj[..i], obj[i]);
    SelectAppend(reg, DefinedFields(obj[..i]), obj[i], prefix, known);
    assert DefinedFields(obj[..i]) + [] == DefinedFields(obj[..i]);
    assert Select(reg, DefinedFields(obj[..i]), prefix, known) + [] == Select(reg, DefinedFields(obj[..i]), prefix, known);
  }

  /** The known and unknown keys in print order: both arrays are filled in key order, then sorted. */
  method SortedFields(reg: Registry, obj: seq<Field>, prefix: Text) returns (sorted: seq<Field>)
    ensures sorted == Order(reg, obj, prefix)
  {
    var known: seq<Field>, unknown: seq<Field> := [], [];
    for i := 0 to |obj|
      invariant known == Select(reg, DefinedFields(obj[..i]), prefix, true)
      invariant unknown == Select(reg, DefinedFields(obj[..i]), prefix, false)
    {
      SplitStep(reg, obj, i, prefix, true);
      SplitStep(reg, obj, i, prefix, false);
      if !obj[i].value.Undefined? {
        if IsKnown(reg, obj[i], prefix) {
          known := known + [obj[i]];
        } else {
          unknown := unknown + [obj[i]];
        }
      }
    }
    assert obj[..|obj|] == obj;
    sorted := Sort(IndexOrder(reg, prefix), known) + Sort(KeyOrder(), unknown);
  }

  /** The text of one field: the lines it adds, each preceded by a line break. */
  function FieldText(reg: Registry, f: Field, prefix: Text, depth: nat, more: bool): Text {
    LinePrefix(reg, PathOf(prefix, f.key), depth + 1, true)
    + (Quote(f.key) + ([COLON, SPACE] + (RenderValue(reg, f.value, PathOf(prefix, f.key), depth + 1, true) + Separator(more))))
  }

  lemma RenderFieldsStep(reg: Registry, fields: seq<Field>, order: seq<Field>, i: nat, prefix: Text, depth: nat)
    requires i < |order| && forall f <- order :: f in fields
    ensures RenderFields(reg, fields, order, i, prefix, depth, true) ==
              FieldText(reg, order[i], prefix, depth, i + 1 < |order|) + RenderFields(reg, fields, order, i + 1, prefix, depth, true)
  {
    var path := PathOf(prefix, order[i].key);
    assert order[i] in fields;
    var line, key := LinePrefix(reg, path, depth + 1, true), Quote(order[i].key);
    var value, sep := RenderValue(reg, order[i].value, path, depth + 1, true), Separator(i + 1 < |order|);
    var next := RenderFields(reg, fields, order, i + 1, prefix, depth, true);
    Assoc(line, key + ([COLON, SPACE] + (value + sep)), next);
    Assoc(key, [COLON, SPACE] + (value + sep), next);
    Assoc([COLON, SPACE], value + sep, next);
    Assoc(value, sep, next);
  }

  /** The lines of a nested object, its first one behind the key and its last one before the comma. */
  method PushNested(lines: seq<Text>, head: Text, nested: Text, sep: Text) returns (out: seq<Text>)
    requires lines != [] && LF in nested
    ensures out != [] && Join(out, [LF]) == Join(lines, [LF]) + ([LF] + (head + (nested + sep)))
  {
    var nestedLines := Split(nested);
    SplitHasTwo(nested);
    JoinSplit(nested);
    JoinPush(lines, head + nestedLines[0], [LF]);
    out := lines + [head + nestedLines[0]];
    assert nestedLines[..1] == [nestedLines[0]];
    var last := |nestedLines| - 1;
    for j := 1 to last
      invariant out != [] && Join(out, [LF]) == Join(lines, [LF]) + ([LF] + (head + Join(nestedLines[..j], [LF])))
    {
      JoinPush(out, nestedLines[j], [LF]);
      JoinTake(nestedLines, j);
      NestedAssoc(Join(lines, [LF]), head, Join(nestedLines[..j], [LF]), [LF] + nestedLines[j]);
      out := out + [nestedLines[j]];
    }
    JoinPush(out, nestedLines[last] + sep, [LF]);
    JoinTake(nestedLines, last);
    assert nestedLines[..last + 1] == nestedLines;
    Assoc([LF], nestedLines[last], sep);
    NestedAssoc(Join(lines, [LF]), head, Join(nestedLines[..last], [LF]), [LF] + (nestedLines[last] + sep));
    Assoc(Join(nestedLines[..last], [LF]), [LF] + nestedLines[last], sep);
    out := out + [nestedLines[last] + sep];
  }

  lemma JoinTake(lines: seq<Text>, j: nat)
    requires 0 < j < |lines|
    ensures Join(lines[..j + 1], [LF]) == Join(lines[..j], [LF]) + ([LF] + lines[j])
  {
    assert lines[..j + 1] == lines[..j] + [lines[j]];
    JoinPush(lines[..j], lines[j], [LF]);
  }

  lemma NestedAssoc(a: Text, head: Text, b: Text, c: Text)
    ensures (a + ([LF] + (head + b))) + c == a + ([LF] + (head + (b + c)))
  {
    Assoc(a, [LF] + (head + b), c);
    Assoc([LF], head + b, c);
    Assoc(head, b, c);
  }

  /** renderObject. */
  method Render(reg: Registry, obj: seq<Field>, prefix: Text, baseIndent: nat) returns (text: Text)
    ensures text == RenderObject(reg, obj, prefix, baseIndent, true)
    decreases Obj(obj)
  {
    var lines: seq<Text> := [[OPEN_BRACE]];
    var sorted := SortedFields(reg, obj, prefix);
    ghost var all := RenderFields(reg, obj, sorted, 0, prefix, baseIndent, true);
    for i := 0 to |sorted|
      invariant lines != []
      invariant Join(lines, [LF]) + RenderFields(reg, obj, sorted, i, prefix, baseIndent, true) == [OPEN_BRACE] + all
    {
      assert sorted[i] in obj;
      RenderFieldsStep(reg, obj, sorted, i, prefix, baseIndent);
      ghost var before := Join(lines, [LF]);
      lines := PushField(reg, obj, sorted[i], prefix, baseIndent, i == |sorted| - 1, lines);
      Assoc(before, FieldText(reg, sorted[i], prefix, baseIndent, i + 1 < |sorted|),
            RenderFields(reg, obj, sorted, i + 1, prefix, baseIndent, true));
    }
    assert Join(lines, [LF]) + [] == Join(lines, [LF]);
    JoinPush(lines, Indent(baseIndent) + [CLOSE_BRACE], [LF]);
    Assoc([OPEN_BRACE], all, [LF] + (Indent(baseIndent) + [CLOSE_BRACE]));
    lines := lines + [Indent(baseIndent) + [CLOSE_BRACE]];
    text := Join(lines, [LF]);
  }

  lemma CommentPushed(reg: Registry, path: Text, depth: nat, joined: Text, rest: Text)
    ensures
      var withComment := if Has(reg, path) then joined + ([LF] + (Indent(depth) + ([SLASH, SLASH, SPACE] + Purpose(reg, path)))) else joined;
      withComment + ([LF] + (Indent(depth) + rest)) == joined + (LinePrefix(reg, path, depth, true) + rest)
  {
    var line := [LF] + (Indent(depth) + rest);
    Assoc([LF], Indent(depth), rest);
    if Has(reg, path) {
      var slashes, purpose := [SLASH, SLASH, SPACE], Purpose(reg, path);
      NestedAssoc(joined, Indent(depth), slashes + purpose, line);
      Assoc(slashes, purpose, line);
      var end := [LF] + Indent(depth);
      Assoc(purpose, end, rest);
      Assoc(slashes, purpose + end, rest);
      Assoc(Indent(depth), slashes + (purpose + end), rest);
      Assoc([LF], Indent(depth) + (slashes + (purpose + end)), rest);
    }
  }

  method PushField(reg: Registry, obj: seq<Field>, f: Field, prefix: Text, baseIndent: nat, isLast: bool, before: seq<Text>)
    returns (lines: seq<Text>)
    requires before != [] && f in obj
    ensures lines != [] && Join(lines, [LF]) == Join(before, [LF]) + FieldText(reg, f, prefix, baseIndent, !isLast)
    decreases Obj(obj), 0
  {
    lines := before;
    var path := PathOf(prefix, f.key);
    var childIndent := Indent(baseIndent + 1);
    var sep := Separator(!isLast);
    if Has(reg, path) {
      JoinPush(lines, childIndent + ([SLASH, SLASH, SPACE] + Purpose(reg, path)), [LF]);
      lines := lines + [childIndent + ([SLASH, SLASH, SPACE] + Purpose(reg, path))];
    }
    ghost var value := RenderValue(reg, f.value, path, baseIndent + 1, true);
    CommentPushed(reg, path, baseIndent + 1, Join(before, [LF]), Quote(f.key) + ([COLON, SPACE] + (value + sep)));
    var head := childIndent + (Quote(f.key) + [COLON, SPACE]);
    Assoc(childIndent, Quote(f.key) + [COLON, SPACE], value + sep);
    Assoc(Quote(f.key), [COLON, SPACE], value + sep);
    if f.value.Obj? && f.value.fields != [] {
      var nested := Render(reg, f.value.fields, path, baseIndent + 1);
      assert LF in nested;
      lines := PushNested(lines, head, nested, sep);
    } else {
      var leaf := if f.value.Obj? then [OPEN_BRACE, CLOSE_BRACE] else Stringify(Clean(f.value));
      JoinPush(lines, head + (leaf + sep), [LF]);
      lines := lines + [head + (leaf + sep)];
    }
  }

  method RenderJsoncConfig(reg: Registry, config: seq<Field>) returns (text: Text)
    ensures text == RenderConfig(reg, config, true)
  {
    var rendered := Render(reg, config, [], 0);
    text := rendered + [LF];
  }
}
