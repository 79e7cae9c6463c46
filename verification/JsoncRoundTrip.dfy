/** Parsing a rendered configuration gives the same configuration back. */
module JsoncRoundTrip {
  import opened Base
  import opened Text
  import opened JsonValue
  import opened JsonPrint
  import opened JsonParse
  import opened JsonRoundTrip
  import opened JsoncStrip
  import opened JsoncRender
  import CT = ConfigTree

  // ---------------------------------------------------------------- parseJsoncConfig

  datatype ParseError = UnterminatedComment | InvalidJson | RootNotObject

  /** Strip, parse, and insist on an object at the root. */
  function ParseJsonc(raw: Text): Result<seq<Field>, ParseError> {
    match Strip(raw)
    case None => Err(UnterminatedComment)
    case Some(s) =>
      match Parse(s)
      case None => Err(InvalidJson)
      case Some(v) => if v.Obj? then Ok(v.fields) else Err(RootNotObject)
  }

  // ---------------------------------------------------------------- what stripping does to the pieces

  /** Wherever `a` stands outside strings, stripping turns it into `c`. */
  ghost predicate StripsTo(a: Text, c: Text) {
    forall b: Text :: Strip(a + b) == Prepend(c, Strip(b))
  }

  lemma StripsConcat(a: Text, c: Text, a2: Text, c2: Text)
    requires StripsTo(a, c) && StripsTo(a2, c2)
    ensures StripsTo(a + a2, c + c2)
  {
    forall b: Text ensures Strip((a + a2) + b) == Prepend(c + c2, Strip(b)) {
      Assoc(a, a2, b);
      PrependTwice(c, c2, Strip(b));
    }
  }

  lemma {:induction false} PlainStrips(a: Text)
    requires forall u <- a :: u != QUOTE && u != SLASH
    ensures StripsTo(a, a)
  {
    forall b: Text ensures Strip(a + b) == Prepend(a, Strip(b)) {
      PlainPrefix(a, b);
    }
  }

  lemma PlainStep(a: Text, b: Text)
    requires a != [] && forall u <- a :: u != QUOTE && u != SLASH
    ensures Strip(a + b) == Prepend([a[0]], Strip(a[1..] + b))
  {
    assert a[0] in a;
    assert (a + b)[1..] == a[1..] + b;
    OtherStep(a + b);
  }

  lemma {:induction false} PlainPrefix(a: Text, b: Text)
    requires forall u <- a :: u != QUOTE && u != SLASH
    ensures Strip(a + b) == Prepend(a, Strip(b))
  {
    hide *;
    if a == [] {
      assert a + b == b;
      PrependNothing(Strip(b));
    } else {
      assert forall u <- a[1..] :: u in a;
      PlainStep(a, b);
      PlainPrefix(a[1..], b);
      PrependTwice([a[0]], a[1..], Strip(b));
      assert [a[0]] + a[1..] == a;
    }
  }

  /** Inside a literal the scan runs over printed content up to the closing quote, whatever it holds. */
  lemma {:induction false} EscapedRunsToQuote(t: Text, before: Text, after: Text)
    ensures StringEnd(before + (Escape(t) + ([QUOTE] + after)), |before|) == |before| + |Escape(t)| + 1
    decreases |t|
  {
    var s := before + (Escape(t) + ([QUOTE] + after));
    if t == [] {
      assert s[|before|] == QUOTE;
    } else {
      var step := if |t| > 1 && IsHighSurrogate(t[0]) && IsLowSurrogate(t[1]) then 2 else 1;
      var head := if step == 2 then [t[0], t[1]] else EscapeUnit(t[0]);
      var rest := Escape(t[step..]) + ([QUOTE] + after);
      Assoc(head, Escape(t[step..]), [QUOTE] + after);
      Assoc(before, head, rest);
      EscapedRunsToQuote(t[step..], before + head, after);
      StringEndOver(before, head, rest);
    }
  }

  /** A plain unit, a surrogate pair, or one escape sequence is passed over. */
  lemma StringEndOver(before: Text, head: Text, rest: Text)
    requires head != []
    requires |head| <= 2 ==> (|head| == 2 && head[0] == BACKSLASH) || forall u <- head :: u != BACKSLASH && u != QUOTE
    requires |head| > 2 ==> |head| == 6 && head[0] == BACKSLASH && forall k :: 2 <= k < 6 ==> head[k] != BACKSLASH && head[k] != QUOTE
    ensures StringEnd(before + (head + rest), |before|) == StringEnd(before + (head + rest), |before + head|)
  {
    var s := before + (head + rest);
    var n := |before|;
    assert forall k :: 0 <= k < |head| ==> s[n + k] == head[k];
    if |head| == 6 {
      assert StringEnd(s, n) == StringEnd(s, n + 2);
      assert StringEnd(s, n + 2) == StringEnd(s, n + 3);
      assert StringEnd(s, n + 3) == StringEnd(s, n + 4);
      assert StringEnd(s, n + 4) == StringEnd(s, n + 5);
      assert StringEnd(s, n + 5) == StringEnd(s, n + 6);
    } else if |head| == 2 && head[0] == BACKSLASH {
      assert StringEnd(s, n) == StringEnd(s, n + 2);
    } else {
      assert head[0] in head;
      assert StringEnd(s, n) == StringEnd(s, n + 1);
      if |head| == 2 {
        assert head[1] in head;
        assert StringEnd(s, n + 1) == StringEnd(s, n + 2);
      }
    }
  }

  lemma QuoteStrips(t: Text)
    ensures StripsTo(Quote(t), Quote(t))
  {
    forall b: Text ensures Strip(Quote(t) + b) == Prepend(Quote(t), Strip(b)) {
      var s := Quote(t) + b;
      Assoc([QUOTE] + Escape(t), [QUOTE], b);
      Assoc([QUOTE], Escape(t), [QUOTE] + b);
      EscapedRunsToQuote(t, [QUOTE], b);
      var n := |Quote(t)|;
      assert s[..n] == Quote(t) && s[n..] == b;
      assert NextToken(s) == Literal(Quote(t));
    }
  }

  lemma FieldStrips(key: Text, value: Text, value': Text, more: Text, more': Text, colon: Text)
    requires StripsTo(key, key) && StripsTo(value, value') && StripsTo(more, more') && StripsTo(colon, colon)
    ensures StripsTo(key + (colon + (value + more)), key + (colon + (value' + more')))
  {
    hide StripsTo;
    StripsConcat(value, value', more, more');
    StripsConcat(colon, colon, value + more, value' + more');
    StripsConcat(key, key, colon + (value + more), colon + (value' + more'));
  }

  /** A printed value passes through stripping unchanged. */
  lemma {:induction false} StringifiedStrips(v: Value)
    requires Pure(v)
    ensures StripsTo(Stringify(v), Stringify(v))
    decreases v, 1, 0
  {
    hide StripsTo;
    match v
    case Str(t) => QuoteStrips(t);
    case Arr(items) =>
      ItemsStrip(items, 0);
      PlainStrips([OPEN_BRACKET]);
      PlainStrips([CLOSE_BRACKET]);
      StripsConcat([OPEN_BRACKET], [OPEN_BRACKET], Items(items, 0), Items(items, 0));
      StripsConcat([OPEN_BRACKET] + Items(items, 0), [OPEN_BRACKET] + Items(items, 0), [CLOSE_BRACKET], [CLOSE_BRACKET]);
    case Obj(fields) =>
      MembersStrip(fields, 0);
      PlainStrips([OPEN_BRACE]);
      PlainStrips([CLOSE_BRACE]);
      StripsConcat([OPEN_BRACE], [OPEN_BRACE], Members(fields, 0), Members(fields, 0));
      StripsConcat([OPEN_BRACE] + Members(fields, 0), [OPEN_BRACE] + Members(fields, 0), [CLOSE_BRACE], [CLOSE_BRACE]);
    case _ => PlainStrips(Stringify(v));
  }

  lemma {:induction false} ItemsStrip(items: seq<Value>, i: nat)
    requires i <= |items| && Pure(Arr(items))
    ensures StripsTo(Items(items, i), Items(items, i))
    decreases Arr(items), 0, |items| - i
  {
    hide StripsTo;
    if i == |items| {
      PlainStrips([]);
    } else {
      StringifiedStrips(items[i]);
      PlainStrips(Separator(i + 1 < |items|));
      ItemsStrip(items, i + 1);
      var more := Separator(i + 1 < |items|) + Items(items, i + 1);
      StripsConcat(Separator(i + 1 < |items|), Separator(i + 1 < |items|), Items(items, i + 1), Items(items, i + 1));
      StripsConcat(Stringify(items[i]), Stringify(items[i]), more, more);
    }
  }

  lemma {:induction false} MembersStrip(fields: seq<Field>, i: nat)
    requires i <= |fields| && Pure(Obj(fields))
    ensures StripsTo(Members(fields, i), Members(fields, i))
    decreases Obj(fields), 0, |fields| - i
  {
    hide StripsTo;
    if i == |fields| {
      PlainStrips([]);
    } else {
      var sep, next := Separator(i + 1 < |fields|), Members(fields, i + 1);
      var key, value := Quote(fields[i].key), Stringify(fields[i].value);
      QuoteStrips(fields[i].key);
      StringifiedStrips(fields[i].value);
      PlainStrips(sep);
      PlainStrips([COLON]);
      MembersStrip(fields, i + 1);
      StripsConcat(sep, sep, next, next);
      FieldStrips(key, value, value, sep + next, sep + next, [COLON]);
    }
  }

  // ---------------------------------------------------------------- stripping a rendered configuration

  /** Registry comments are one line each. */
  predicate OneLine(reg: Registry) {
    forall s <- reg :: forall u <- s.purpose :: !IsLineBreak(u)
  }

  lemma {:induction false} PurposeOneLine(reg: Registry, path: Text)
    requires OneLine(reg)
    ensures forall u <- Purpose(reg, path) :: !IsLineBreak(u)
  {
    if reg != [] {
      assert reg[|reg| - 1] in reg;
      assert forall s <- reg[..|reg| - 1] :: s in reg;
      PurposeOneLine(reg[..|reg| - 1], path);
    }
  }

  lemma {:induction false} IndentIsSpaces(n: nat)
    ensures forall u <- Indent(n) :: u == SPACE
  {
    if n > 0 { IndentIsSpaces(n - 1); }
  }

  lemma {:induction false} LineEndAt(s: Text, i: nat, n: nat)
    requires i <= n < |s| && IsLineBreak(s[n]) && forall k :: i <= k < n ==> !IsLineBreak(s[k])
    ensures LineEnd(s, i) == n
    decreases n - i
  {
    if i < n { LineEndAt(s, i + 1, n); }
  }

  /** A comment up to the line break that ends it vanishes. */
  lemma CommentVanishes(purpose: Text, after: Text)
    requires (forall u <- purpose :: !IsLineBreak(u)) && StartsWith(after, LF)
    ensures Strip([SLASH, SLASH, SPACE] + (purpose + after)) == Strip(after)
  {
    var s := [SLASH, SLASH, SPACE] + (purpose + after);
    var n := 3 + |purpose|;
    forall k | 2 <= k < n ensures !IsLineBreak(s[k]) {
      if k >= 3 { assert s[k] == purpose[k - 3] && purpose[k - 3] in purpose; }
    }
    assert s[n] == after[0];
    LineEndAt(s, 2, n);
    assert s[n..] == after;
    assert NextToken(s) == LineComment(s[..n]);
  }

  lemma CommentStrips(purpose: Text, after: Text)
    requires (forall u <- purpose :: !IsLineBreak(u)) && StartsWith(after, LF) && StripsTo(after, after)
    ensures StripsTo([SLASH, SLASH, SPACE] + (purpose + after), after)
  {
    forall b: Text ensures Strip(([SLASH, SLASH, SPACE] + (purpose + after)) + b) == Prepend(after, Strip(b)) {
      Assoc([SLASH, SLASH, SPACE], purpose + after, b);
      Assoc(purpose, after, b);
      CommentVanishes(purpose, after + b);
    }
  }

  lemma LinePrefixStrips(reg: Registry, path: Text, depth: nat)
    requires OneLine(reg)
    ensures StripsTo(LinePrefix(reg, path, depth, true), LinePrefix(reg, path, depth, false))
  {
    IndentIsSpaces(depth);
    var line := [LF] + Indent(depth);
    PlainStrips(line);
    if Has(reg, path) {
      PurposeOneLine(reg, path);
      CommentStrips(Purpose(reg, path), line);
      PlainStrips([LF]);
      PlainStrips(Indent(depth));
      var comment := [SLASH, SLASH, SPACE] + (Purpose(reg, path) + line);
      StripsConcat(Indent(depth), Indent(depth), comment, line);
      StripsConcat([LF], [LF], Indent(depth) + comment, Indent(depth) + line);
    }
  }

  lemma {:induction false} RenderedValueStrips(reg: Registry, v: Value, path: Text, depth: nat)
    requires OneLine(reg) && WellFormed(v) && !v.Undefined?
    ensures StripsTo(RenderValue(reg, v, path, depth, true), RenderValue(reg, v, path, depth, false))
    decreases v, 1, 0
  {
    hide StripsTo;
    if !v.Obj? {
      CleanIsJson(v);
      StringifiedStrips(Clean(v));
    } else if v.fields == [] {
      PlainStrips([OPEN_BRACE, CLOSE_BRACE]);
    } else {
      RenderedObjectStrips(reg, v.fields, path, depth);
    }
  }

  lemma {:induction false} RenderedObjectStrips(reg: Registry, fields: seq<Field>, prefix: Text, depth: nat)
    requires OneLine(reg) && WellFormed(Obj(fields))
    ensures StripsTo(RenderObject(reg, fields, prefix, depth, true), RenderObject(reg, fields, prefix, depth, false))
    decreases Obj(fields), 0, |Order(reg, fields, prefix)| + 1
  {
    hide StripsTo;
    var order := Order(reg, fields, prefix);
    var end := [LF] + (Indent(depth) + [CLOSE_BRACE]);
    IndentIsSpaces(depth);
    PlainStrips(end);
    PlainStrips([OPEN_BRACE]);
    RenderedFieldsStrip(reg, fields, order, 0, prefix, depth);
    var f, f' := RenderFields(reg, fields, order, 0, prefix, depth, true), RenderFields(reg, fields, order, 0, prefix, depth, false);
    StripsConcat(f, f', end, end);
    StripsConcat([OPEN_BRACE], [OPEN_BRACE], f + end, f' + end);
  }

  lemma {:induction false} RenderedFieldsStrip(reg: Registry, fields: seq<Field>, order: seq<Field>, i: nat, prefix: Text, depth: nat)
    requires OneLine(reg) && WellFormed(Obj(fields)) && i <= |order| && forall f <- order :: f in fields && Defined(f)
    ensures StripsTo(RenderFields(reg, fields, order, i, prefix, depth, true), RenderFields(reg, fields, order, i, prefix, depth, false))
    decreases Obj(fields), 0, |order| - i
  {
    hide StripsTo;
    if i == |order| {
      PlainStrips([]);
    } else {
      var path := PathOf(prefix, order[i].key);
      assert order[i] in order && order[i] in fields;
      LinePrefixStrips(reg, path, depth + 1);
      QuoteStrips(order[i].key);
      PlainStrips([COLON, SPACE]);
      RenderedValueStrips(reg, order[i].value, path, depth + 1);
      var sep := Separator(i + 1 < |order|);
      PlainStrips(sep);
      RenderedFieldsStrip(reg, fields, order, i + 1, prefix, depth);
      var next := RenderFields(reg, fields, order, i + 1, prefix, depth, true);
      var next' := RenderFields(reg, fields, order, i + 1, prefix, depth, false);
      StripsConcat(sep, sep, next, next');
      var value := RenderValue(reg, order[i].value, path, depth + 1, true);
      var value' := RenderValue(reg, order[i].value, path, depth + 1, false);
      FieldStrips(Quote(order[i].key), value, value', sep + next, sep + next', [COLON, SPACE]);
      StripsConcat(LinePrefix(reg, path, depth + 1, true), LinePrefix(reg, path, depth + 1, false),
                   Quote(order[i].key) + ([COLON, SPACE] + (value + (sep + next))),
                   Quote(order[i].key) + ([COLON, SPACE] + (value' + (sep + next'))));
    }
  }

  // ---------------------------------------------------------------- the printed value is JSON

  lemma {:induction false} DefinedKeysDistinct(fields: seq<Field>)
    requires DistinctKeys(fields)
    ensures DistinctKeys(DefinedFields(fields))
  {
    if fields != [] {
      assert DistinctKeys(fields[1..]);
      DefinedKeysDistinct(fields[1..]);
      assert forall f <- fields[1..] :: f.key != fields[0].key;
    }
  }

  /** What survives JSON holds nothing undefined. */
  lemma {:induction false} CleanIsJson(v: Value)
    requires WellFormed(v)
    ensures WellFormed(Clean(v)) && (!v.Undefined? ==> Pure(Clean(v)))
  {
    match v
    case Arr(items) =>
      forall i | 0 <= i < |items| ensures WellFormed(Clean(v).items[i]) && Pure(Clean(v).items[i]) {
        CleanIsJson(items[i]);
      }
    case Obj(fields) =>
      var d := DefinedFields(fields);
      DefinedKeysDistinct(fields);
      forall i | 0 <= i < |d| ensures WellFormed(Clean(v).fields[i].value) && Pure(Clean(v).fields[i].value) {
        assert d[i] in d && d[i] in fields;
        CleanIsJson(d[i].value);
      }
    case _ =>
  }
}
