/** The printer and the parser of configuration files are inverse to each other. */
module JsoncTheorems {
  import opened Base
  import opened Text
  import opened JsonValue
  import opened JsonPrint
  import opened JsonParse
  import opened JsonRoundTrip
  import opened JsoncStrip
  import opened JsoncRender
  import opened Sorting
  import opened JsoncRoundTrip
  import CT = ConfigTree

  // ---------------------------------------------------------------- keys stay distinct

  lemma PermutationKeepsKeysDistinct(a: seq<Field>, b: seq<Field>)
    requires DistinctKeys(a) && multiset(a) == multiset(b)
    ensures DistinctKeys(b)
  {
    forall i, j | 0 <= i < j < |b| ensures b[i].key != b[j].key {
      assert b[i] in multiset(b) && b[j] in multiset(b);
      if b[i].key == b[j].key {
        var m :| 0 <= m < |a| && a[m] == b[i];
        var n :| 0 <= n < |a| && a[n] == b[j];
        assert m == n;
        TwiceMeans(b, i, j);
        OccursOnce(a, b[i]);
        assert false;
      }
    }
  }

  lemma OrderKeysDistinct(reg: Registry, fields: seq<Field>, prefix: Text)
    requires DistinctKeys(fields)
    ensures DistinctKeys(Order(reg, fields, prefix))
  {
    DefinedKeysDistinct(fields);
    OrderPermutes(reg, fields, prefix);
    PermutationKeepsKeysDistinct(DefinedFields(fields), Order(reg, fields, prefix));
  }

  /** The printed value is a JSON value with distinct keys. */
  lemma {:induction false} PrintedIsJson(reg: Registry, v: Value, path: Text)
    requires WellFormed(v)
    ensures WellFormed(Printed(reg, v, path)) && (!v.Undefined? ==> Pure(Printed(reg, v, path)))
  {
    CleanIsJson(v);
    if v.Obj? {
      var order := Order(reg, v.fields, path);
      OrderKeysDistinct(reg, v.fields, path);
      var printed := PrintedFields(reg, v.fields, path);
      forall i | 0 <= i < |printed| ensures WellFormed(printed[i].value) && Pure(printed[i].value) {
        assert order[i] in order && order[i] in v.fields;
        PrintedIsJson(reg, order[i].value, PathOf(path, order[i].key));
      }
    }
  }

  // ---------------------------------------------------------------- parsing the stripped text

  predicate AllSpace(a: Text) { forall u <- a :: IsSpace(u) }

  lemma {:induction false} SkipLeadingSpace(a: Text, s: Text)
    requires AllSpace(a)
    ensures SkipSpace(a + s) == SkipSpace(s)
  {
    if a == [] {
      assert a + s == s;
    } else {
      assert a[0] in a && forall u <- a[1..] :: u in a;
      assert (a + s)[1..] == a[1..] + s;
      SkipLeadingSpace(a[1..], s);
    }
  }

  lemma LinePrefixIsSpace(reg: Registry, path: Text, depth: nat)
    ensures AllSpace(LinePrefix(reg, path, depth, false))
  {
    IndentIsSpaces(depth);
  }

  /** Once its comments are stripped, a rendered value parses to the printed value. */
  lemma {:induction false} ParseRenderedValue(reg: Registry, v: Value, path: Text, depth: nat, rest: Text)
    requires WellFormed(v) && !v.Undefined? && EndsNumber(rest)
    ensures ParseValue(RenderValue(reg, v, path, depth, false) + rest) == Some((Printed(reg, v, path), rest))
    decreases v, 1, 0
  {
    if !v.Obj? {
      CleanIsJson(v);
      ParseStringified(Clean(v), rest);
    } else if v.fields == [] {
      assert DefinedFields(v.fields) == [];
      assert [OPEN_BRACE, CLOSE_BRACE] + rest == [OPEN_BRACE] + ([CLOSE_BRACE] + rest);
      SkipNothing([CLOSE_BRACE] + rest);
      ObjectStep([CLOSE_BRACE] + rest);
      assert PrintedFields(reg, v.fields, path) == [];
      assert ([CLOSE_BRACE] + rest)[1..] == rest;
    } else {
      ParseRenderedObject(reg, v.fields, path, depth, rest);
    }
  }

  function ObjectEnd(depth: nat, rest: Text): Text {
    [LF] + (Indent(depth) + ([CLOSE_BRACE] + rest))
  }

  lemma ObjectEndSkips(depth: nat, rest: Text)
    ensures SkipSpace(ObjectEnd(depth, rest)) == [CLOSE_BRACE] + rest
    ensures ([CLOSE_BRACE] + rest)[1..] == rest
  {
    IndentIsSpaces(depth);
    SkipLeadingSpace(Indent(depth), [CLOSE_BRACE] + rest);
    SkipLeadingSpace([LF], Indent(depth) + ([CLOSE_BRACE] + rest));
    SkipNothing([CLOSE_BRACE] + rest);
  }

  lemma ObjectText(reg: Registry, fields: seq<Field>, prefix: Text, depth: nat, rest: Text)
    ensures RenderObject(reg, fields, prefix, depth, false) + rest ==
              [OPEN_BRACE] + (RenderFields(reg, fields, Order(reg, fields, prefix), 0, prefix, depth, false) + ObjectEnd(depth, rest))
  {
    var f := RenderFields(reg, fields, Order(reg, fields, prefix), 0, prefix, depth, false);
    var close := Indent(depth) + [CLOSE_BRACE];
    Assoc([OPEN_BRACE], f + ([LF] + close), rest);
    Assoc(f, [LF] + close, rest);
    Assoc([LF], close, rest);
    Assoc(Indent(depth), [CLOSE_BRACE], rest);
  }

  lemma {:induction false} ParseRenderedObject(reg: Registry, fields: seq<Field>, prefix: Text, depth: nat, rest: Text)
    requires WellFormed(Obj(fields))
    ensures ParseValue(RenderObject(reg, fields, prefix, depth, false) + rest) ==
              Some((Obj(PrintedFields(reg, fields, prefix)), rest))
    decreases Obj(fields), 0, |Order(reg, fields, prefix)| + 1
  {
    var order := Order(reg, fields, prefix);
    var body := RenderFields(reg, fields, order, 0, prefix, depth, false) + ObjectEnd(depth, rest);
    ObjectText(reg, fields, prefix, depth, rest);
    ObjectEndSkips(depth, rest);
    if order == [] {
      assert body == ObjectEnd(depth, rest);
      assert PrintedFields(reg, fields, prefix) == [];
    } else {
      FieldsStart(reg, fields, order, 0, prefix, depth, ObjectEnd(depth, rest));
      ParseRenderedFields(reg, fields, 0, prefix, depth, rest);
      assert PrintedFields(reg, fields, prefix)[..0] == [];
    }
    ObjectStep(body);
  }

  lemma FieldsStart(reg: Registry, fields: seq<Field>, order: seq<Field>, i: nat, prefix: Text, depth: nat, tail: Text)
    requires i < |order| && forall f <- order :: f in fields
    ensures StartsWith(SkipSpace(RenderFields(reg, fields, order, i, prefix, depth, false) + tail), QUOTE)
    ensures
      var path := PathOf(prefix, order[i].key);
      assert order[i] in fields;
      var more := RenderValue(reg, order[i].value, path, depth + 1, false)
                  + (Separator(i + 1 < |order|) + RenderFields(reg, fields, order, i + 1, prefix, depth, false));
      SkipSpace(RenderFields(reg, fields, order, i, prefix, depth, false) + tail)
        == Quote(order[i].key) + ([COLON, SPACE] + (more + tail))
  {
    var path := PathOf(prefix, order[i].key);
    assert order[i] in fields;
    var more := RenderValue(reg, order[i].value, path, depth + 1, false)
                + (Separator(i + 1 < |order|) + RenderFields(reg, fields, order, i + 1, prefix, depth, false));
    var line := LinePrefix(reg, path, depth + 1, false);
    var key := Quote(order[i].key);
    Assoc(line, key + ([COLON, SPACE] + more), tail);
    Assoc(key, [COLON, SPACE] + more, tail);
    Assoc([COLON, SPACE], more, tail);
    LinePrefixIsSpace(reg, path, depth + 1);
    var s := key + ([COLON, SPACE] + (more + tail));
    SkipLeadingSpace(line, s);
    SkipNothing(s);
  }

  lemma ValueStart(reg: Registry, v: Value, path: Text, depth: nat, tail: Text)
    requires WellFormed(v) && !v.Undefined?
    ensures SkipSpace([SPACE] + (RenderValue(reg, v, path, depth, false) + tail)) == RenderValue(reg, v, path, depth, false) + tail
  {
    if !v.Obj? {
      CleanIsJson(v);
      FirstUnit(Clean(v));
    } else if v.fields != [] {
      assert RenderObject(reg, v.fields, path, depth, false)[0] == OPEN_BRACE;
    }
    SkipLeadingSpace([SPACE], RenderValue(reg, v, path, depth, false) + tail);
    SkipNothing(RenderValue(reg, v, path, depth, false) + tail);
  }

  /** What follows the value of field i. */
  function AfterValue(reg: Registry, fields: seq<Field>, order: seq<Field>, i: nat, prefix: Text, depth: nat, rest: Text): Text
    requires i < |order| && forall f <- order :: f in fields
  {
    (Separator(i + 1 < |order|) + RenderFields(reg, fields, order, i + 1, prefix, depth, false)) + ObjectEnd(depth, rest)
  }

  lemma AfterValueSkips(reg: Registry, fields: seq<Field>, order: seq<Field>, i: nat, prefix: Text, depth: nat, rest: Text)
    requires i < |order| && forall f <- order :: f in fields
    ensures
      var tail := AfterValue(reg, fields, order, i, prefix, depth, rest);
      && tail != [] && EndsNumber(tail)
      && (i + 1 < |order| ==>
            && StartsWith(SkipSpace(tail), COMMA)
            && SkipSpace(tail)[1..] == RenderFields(reg, fields, order, i + 1, prefix, depth, false) + ObjectEnd(depth, rest))
      && (i + 1 == |order| ==> SkipSpace(tail) == [CLOSE_BRACE] + rest && SkipSpace(tail)[1..] == rest)
  {
    var end := ObjectEnd(depth, rest);
    var next := RenderFields(reg, fields, order, i + 1, prefix, depth, false);
    if i + 1 < |order| {
      Assoc([COMMA], next, end);
      var tail := [COMMA] + (next + end);
      SkipNothing(tail);
      assert tail[1..] == next + end;
    } else {
      ObjectEndSkips(depth, rest);
      assert [] + [] + end == end;
    }
  }

  /** `"key": value` as printed, given that the value parses. */
  lemma SpacedMemberStep(key: Text, text: Text, tail: Text, acc: seq<Field>, pv: Value)
    requires SkipSpace([SPACE] + (text + tail)) == text + tail && ParseValue(text + tail) == Some((pv, tail))
    requires StartsWith(SkipSpace(tail), COMMA) || StartsWith(SkipSpace(tail), CLOSE_BRACE)
    ensures ParseMembers(Quote(key) + ([COLON, SPACE] + (text + tail)), acc) ==
              if StartsWith(SkipSpace(tail), COMMA)
              then ParseMembers(SkipSpace(SkipSpace(tail)[1..]), Put(acc, key, pv))
              else Some((Obj(Put(acc, key, pv)), SkipSpace(tail)[1..]))
  {
    var afterKey := [COLON, SPACE] + (text + tail);
    assert afterKey[1..] == [SPACE] + (text + tail);
    MemberStep(key, afterKey, pv, tail, acc);
  }

  /** One printed member, given that its value parses. */
  lemma ParseOneMember(reg: Registry, fields: seq<Field>, order: seq<Field>, i: nat, prefix: Text, depth: nat, rest: Text,
                       acc: seq<Field>, pv: Value)
    requires i < |order| && (forall f <- order :: f in fields && Defined(f)) && WellFormed(Obj(fields))
    requires
      var tail := AfterValue(reg, fields, order, i, prefix, depth, rest);
      assert order[i] in fields;
      ParseValue(RenderValue(reg, order[i].value, PathOf(prefix, order[i].key), depth + 1, false) + tail) == Some((pv, tail))
    ensures
      ParseMembers(SkipSpace(RenderFields(reg, fields, order, i, prefix, depth, false) + ObjectEnd(depth, rest)), acc) ==
        if i + 1 < |order|
        then ParseMembers(SkipSpace(RenderFields(reg, fields, order, i + 1, prefix, depth, false) + ObjectEnd(depth, rest)),
                          Put(acc, order[i].key, pv))
        else Some((Obj(Put(acc, order[i].key, pv)), rest))
  {
    assert order[i] in order && order[i] in fields;
    var key, v, path := order[i].key, order[i].value, PathOf(prefix, order[i].key);
    var end := ObjectEnd(depth, rest);
    var more := Separator(i + 1 < |order|) + RenderFields(reg, fields, order, i + 1, prefix, depth, false);
    var tail := AfterValue(reg, fields, order, i, prefix, depth, rest);
    var text := RenderValue(reg, v, path, depth + 1, false);
    FieldsStart(reg, fields, order, i, prefix, depth, end);
    Assoc(text, more, end);
    ValueStart(reg, v, path, depth + 1, tail);
    AfterValueSkips(reg, fields, order, i, prefix, depth, rest);
    SpacedMemberStep(key, text, tail, acc, pv);
  }

  lemma {:induction false} ParseRenderedFields(reg: Registry, fields: seq<Field>, i: nat, prefix: Text, depth: nat, rest: Text)
    requires WellFormed(Obj(fields)) && i < |Order(reg, fields, prefix)|
    ensures
      var order, printed := Order(reg, fields, prefix), PrintedFields(reg, fields, prefix);
      ParseMembers(SkipSpace(RenderFields(reg, fields, order, i, prefix, depth, false) + ObjectEnd(depth, rest)), printed[..i])
        == Some((Obj(printed), rest))
    decreases Obj(fields), 0, |Order(reg, fields, prefix)| - i
  {
    hide *;
    var order, printed := Order(reg, fields, prefix), PrintedFields(reg, fields, prefix);
    PrintedAt(reg, fields, prefix, i);
    var path := PathOf(prefix, order[i].key);
    var tail := AfterValue(reg, fields, order, i, prefix, depth, rest);
    AfterValueSkips(reg, fields, order, i, prefix, depth, rest);
    ParseRenderedValue(reg, order[i].value, path, depth + 1, tail);
    ParseOneMember(reg, fields, order, i, prefix, depth, rest, printed[..i], printed[i].value);
    PrintedKeysDistinct(reg, fields, prefix);
    PutFresh(printed, i);
    if i + 1 < |order| {
      ParseRenderedFields(reg, fields, i + 1, prefix, depth, rest);
    } else {
      assert printed[..i + 1] == printed;
    }
  }

  lemma PrintedAt(reg: Registry, fields: seq<Field>, prefix: Text, i: nat)
    requires WellFormed(Obj(fields)) && i < |Order(reg, fields, prefix)|
    ensures
      var order, printed := Order(reg, fields, prefix), PrintedFields(reg, fields, prefix);
      && |printed| == |order| && order[i] in fields && !order[i].value.Undefined?
      && DistinctKeys(fields) && WellFormed(order[i].value) && order[i].value < Obj(fields)
      && printed[i] == Field(order[i].key, Printed(reg, order[i].value, PathOf(prefix, order[i].key)))
  {
    var order := Order(reg, fields, prefix);
    assert order[i] in order && Defined(order[i]);
    var j :| 0 <= j < |fields| && fields[j] == order[i];
    assert WellFormed(fields[j].value);
  }

  lemma PrintedKeysDistinct(reg: Registry, fields: seq<Field>, prefix: Text)
    requires DistinctKeys(fields)
    ensures DistinctKeys(PrintedFields(reg, fields, prefix))
  {
    OrderKeysDistinct(reg, fields, prefix);
  }

  // ---------------------------------------------------------------- the same tree

  ghost predicate HasEntry(fields: seq<Field>, k: Text, t: CT.Tree) {
    exists i :: 0 <= i < |fields| && fields[i].key == k && ToTree(fields[i].value) == t
  }

  lemma {:induction false} MapAt(fields: seq<Field>, n: nat, i: nat)
    requires i < n <= |fields| && DistinctKeys(fields)
    ensures fields[i].key in ToMap(fields, n) && ToMap(fields, n)[fields[i].key] == ToTree(fields[i].value)
    decreases n
  {
    if i < n - 1 {
      MapAt(fields, n - 1, i);
    }
  }

  lemma {:induction false} MapKey(fields: seq<Field>, n: nat, k: Text)
    requires n <= |fields| && k in ToMap(fields, n)
    ensures exists i :: 0 <= i < n && fields[i].key == k
    decreases n
  {
    if fields[n - 1].key != k {
      MapKey(fields, n - 1, k);
    }
  }

  lemma SubMap(a: seq<Field>, b: seq<Field>, k: Text)
    requires DistinctKeys(a) && DistinctKeys(b)
    requires forall i :: 0 <= i < |a| ==> HasEntry(b, a[i].key, ToTree(a[i].value))
    requires k in ToMap(a, |a|)
    ensures k in ToMap(b, |b|) && ToMap(b, |b|)[k] == ToMap(a, |a|)[k]
  {
    MapKey(a, |a|, k);
    var i :| 0 <= i < |a| && a[i].key == k;
    MapAt(a, |a|, i);
    assert HasEntry(b, a[i].key, ToTree(a[i].value));
    var j :| 0 <= j < |b| && b[j].key == k && ToTree(b[j].value) == ToTree(a[i].value);
    MapAt(b, |b|, j);
  }

  /** Two lists of fields with the same entries give the same map. */
  lemma SameMaps(a: seq<Field>, b: seq<Field>)
    requires DistinctKeys(a) && DistinctKeys(b)
    requires forall i :: 0 <= i < |a| ==> HasEntry(b, a[i].key, ToTree(a[i].value))
    requires forall i :: 0 <= i < |b| ==> HasEntry(a, b[i].key, ToTree(b[i].value))
    ensures ToMap(a, |a|) == ToMap(b, |b|)
  {
    var x, y := ToMap(a, |a|), ToMap(b, |b|);
    forall k | k in x ensures k in y && y[k] == x[k] { SubMap(a, b, k); }
    forall k | k in y ensures k in x { SubMap(b, a, k); }
  }

  lemma OrderHasDefined(reg: Registry, fields: seq<Field>, prefix: Text)
    ensures forall f :: f in Order(reg, fields, prefix) <==> f in DefinedFields(fields)
  {
    OrderPermutes(reg, fields, prefix);
    forall f ensures f in Order(reg, fields, prefix) <==> f in DefinedFields(fields) {
      assert f in multiset(Order(reg, fields, prefix)) <==> f in multiset(DefinedFields(fields));
    }
  }

  /** The field prints to the tree it cleans to. */
  ghost predicate PrintsSame(reg: Registry, f: Field, path: Text) {
    ToTree(Printed(reg, f.value, PathOf(path, f.key))) == ToTree(Clean(f.value))
  }

  lemma PrintedInClean(reg: Registry, fields: seq<Field>, path: Text, i: nat)
    requires WellFormed(Obj(fields)) && i < |Order(reg, fields, path)| && forall f <- fields :: PrintsSame(reg, f, path)
    ensures var f := PrintedFields(reg, fields, path)[i]; HasEntry(Clean(Obj(fields)).fields, f.key, ToTree(f.value))
  {
    var order, d, clean := Order(reg, fields, path), DefinedFields(fields), Clean(Obj(fields)).fields;
    OrderHasDefined(reg, fields, path);
    PrintedAt(reg, fields, path, i);
    assert order[i] in order && order[i] in d && PrintsSame(reg, order[i], path);
    var j :| 0 <= j < |d| && d[j] == order[i];
    assert clean[j] == Field(d[j].key, Clean(d[j].value));
  }

  lemma CleanInPrinted(reg: Registry, fields: seq<Field>, path: Text, j: nat)
    requires WellFormed(Obj(fields)) && j < |DefinedFields(fields)| && forall f <- fields :: PrintsSame(reg, f, path)
    ensures var f := Clean(Obj(fields)).fields[j]; HasEntry(PrintedFields(reg, fields, path), f.key, ToTree(f.value))
  {
    var order, d := Order(reg, fields, path), DefinedFields(fields);
    OrderHasDefined(reg, fields, path);
    assert d[j] in d && d[j] in order && PrintsSame(reg, d[j], path);
    var i :| 0 <= i < |order| && order[i] == d[j];
    PrintedAt(reg, fields, path, i);
  }

  /** Printing changes nothing but the order of keys. */
  lemma {:induction false} PrintedSameTree(reg: Registry, v: Value, path: Text)
    requires WellFormed(v)
    ensures ToTree(Printed(reg, v, path)) == ToTree(Clean(v))
    decreases v
  {
    if v.Obj? {
      forall f <- v.fields ensures PrintsSame(reg, f, path) {
        var i :| 0 <= i < |v.fields| && v.fields[i] == f;
        PrintedSameTree(reg, v.fields[i].value, PathOf(path, f.key));
      }
      SameFields(reg, v.fields, path);
    }
  }

  lemma SameFields(reg: Registry, fields: seq<Field>, path: Text)
    requires WellFormed(Obj(fields)) && forall f <- fields :: PrintsSame(reg, f, path)
    ensures ToTree(Obj(PrintedFields(reg, fields, path))) == ToTree(Clean(Obj(fields)))
  {
    var printed, clean := PrintedFields(reg, fields, path), Clean(Obj(fields)).fields;
    PrintedKeysDistinct(reg, fields, path);
    DefinedKeysDistinct(fields);
    forall i | 0 <= i < |printed| ensures HasEntry(clean, printed[i].key, ToTree(printed[i].value)) {
      PrintedInClean(reg, fields, path, i);
    }
    forall j | 0 <= j < |clean| ensures HasEntry(printed, clean[j].key, ToTree(clean[j].value)) {
      CleanInPrinted(reg, fields, path, j);
    }
    SameMaps(printed, clean);
  }

  // ---------------------------------------------------------------- the inverse

  /** Stripping a rendered file removes its comments and nothing else. */
  lemma StripRendered(reg: Registry, fields: seq<Field>)
    requires OneLine(reg) && WellFormed(Obj(fields))
    ensures Strip(RenderConfig(reg, fields, true)) == Some(RenderConfig(reg, fields, false))
  {
    RenderedObjectStrips(reg, fields, [], 0);
    PlainStrips([LF]);
    var a, c := RenderObject(reg, fields, [], 0, true), RenderObject(reg, fields, [], 0, false);
    StripsConcat(a, c, [LF], [LF]);
    assert (a + [LF]) + [] == a + [LF];
    assert (c + [LF]) + [] == c + [LF];
  }

  lemma ParseStripped(reg: Registry, fields: seq<Field>)
    requires WellFormed(Obj(fields))
    ensures Parse(RenderConfig(reg, fields, false)) == Some(Obj(PrintedFields(reg, fields, [])))
  {
    var body := RenderObject(reg, fields, [], 0, false);
    assert body[0] == OPEN_BRACE;
    SkipNothing(body + [LF]);
    ParseRenderedObject(reg, fields, [], 0, [LF]);
    SkipLeadingSpace([LF], []);
    assert [LF] + [] == [LF];
  }

  /** For every configuration, whatever its keys and strings hold, parsing the rendered file gives the
      same configuration up to key order; undefined parts are gone, as JSON has it. What is parsed is a JSON
      value in which no key occurs twice in one object. */
  lemma ParseRendered(reg: Registry, fields: seq<Field>)
    requires OneLine(reg) && WellFormed(Obj(fields))
    ensures ParseJsonc(RenderConfig(reg, fields, true)) == Ok(PrintedFields(reg, fields, []))
    ensures ToTree(Obj(PrintedFields(reg, fields, []))) == ToTree(Clean(Obj(fields)))
    ensures WellFormed(Obj(PrintedFields(reg, fields, []))) && Pure(Obj(PrintedFields(reg, fields, [])))
  {
    StripRendered(reg, fields);
    ParseStripped(reg, fields);
    PrintedSameTree(reg, Obj(fields), []);
    PrintedIsJson(reg, Obj(fields), []);
  }

  lemma {:induction false} DefinedFieldsOfPure(fields: seq<Field>)
    requires forall f <- fields :: Defined(f)
    ensures DefinedFields(fields) == fields
  {
    if fields != [] {
      DefinedFieldsOfPure(fields[1..]);
    }
  }

  /** On JSON values cleaning is the identity. */
  lemma {:induction false} CleanOfPure(v: Value)
    requires Pure(v)
    ensures Clean(v) == v
  {
    match v
    case Arr(items) =>
      forall i | 0 <= i < |items| ensures Clean(v).items[i] == items[i] { CleanOfPure(items[i]); }
      assert Clean(v).items == items;
    case Obj(fields) =>
      forall f <- fields ensures Defined(f) { var i :| 0 <= i < |fields| && fields[i] == f; assert Pure(fields[i].value); }
      DefinedFieldsOfPure(fields);
      forall i | 0 <= i < |fields| ensures Clean(v).fields[i] == fields[i] { CleanOfPure(fields[i].value); }
      assert Clean(v).fields == fields;
    case _ =>
  }

  /** The printer/parser inverse for JSON-valued configurations. */
  lemma RenderParseInverse(reg: Registry, fields: seq<Field>)
    requires OneLine(reg) && WellFormed(Obj(fields)) && Pure(Obj(fields))
    ensures ParseJsonc(RenderConfig(reg, fields, true)).Ok?
    ensures ToTree(Obj(ParseJsonc(RenderConfig(reg, fields, true)).value)) == ToTree(Obj(fields))
  {
    ParseRendered(reg, fields);
    CleanOfPure(Obj(fields));
  }
}
