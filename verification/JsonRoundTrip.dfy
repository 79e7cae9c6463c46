/** JSON.parse undoes JSON.stringify, whatever the strings hold. */
module JsonRoundTrip {
  import opened Base
  import opened Text
  import opened JsonValue
  import opened JsonPrint
  import opened JsonParse

  /** Nothing undefined at any depth. */
  predicate Pure(v: Value) {
    match v
    case Undefined => false
    case Num(t) => IsNumber(t)
    case Arr(items) => forall i :: 0 <= i < |items| ==> Pure(items[i])
    case Obj(fields) => forall i :: 0 <= i < |fields| ==> Pure(fields[i].value)
    case _ => true
  }

  // ---------------------------------------------------------------- strings

  lemma PlainUnit(u: Unit, rest: Text)
    requires u >= SPACE && u != QUOTE && u != BACKSLASH
    ensures ParseString([u] + rest) == Prefixed(u, ParseString(rest))
  {
    assert ([u] + rest)[1..] == rest;
  }

  lemma SimpleEscapedUnit(e: Unit, rest: Text)
    requires SimpleEscape(e).Some?
    ensures ParseString([BACKSLASH, e] + rest) == Prefixed(SimpleEscape(e).value, ParseString(rest))
  {
    assert ([BACKSLASH, e] + rest)[2..] == rest;
  }

  lemma HexDigitReads(d: int)
    requires 0 <= d < 16
    ensures HexValue(HexDigit(d)) == Some(d)
  {
  }

  lemma HexDigitsReadBack(u: Unit)
    ensures ParseHex4(UnicodeEscape(u)[2..6]) == Some(u)
  {
    HexDigitReads(u / 0x10 / 0x10 / 0x10);
    HexDigitReads(u / 0x10 / 0x10 % 0x10);
    HexDigitReads(u / 0x10 % 0x10);
    HexDigitReads(u % 0x10);
  }

  lemma UnicodeEscapedUnit(u: Unit, rest: Text)
    ensures ParseString(UnicodeEscape(u) + rest) == Prefixed(u, ParseString(rest))
  {
    var s := UnicodeEscape(u) + rest;
    assert s[2..6] == UnicodeEscape(u)[2..6];
    assert s[6..] == rest;
    HexDigitsReadBack(u);
  }

  lemma ParseEscapedUnit(u: Unit, rest: Text)
    ensures ParseString(EscapeUnit(u) + rest) == Prefixed(u, ParseString(rest))
  {
    var e := EscapeUnit(u);
    if |e| == 6 {
      UnicodeEscapedUnit(u, rest);
    } else if |e| == 2 {
      SimpleEscapedUnit(e[1], rest);
    } else {
      PlainUnit(u, rest);
    }
  }

  /** A printed string reads back as itself: section 7 of RFC 8259. */
  lemma {:induction false} ParseEscaped(t: Text, rest: Text)
    ensures ParseString(Escape(t) + ([QUOTE] + rest)) == Some((t, rest))
    decreases |t|
  {
    var end := [QUOTE] + rest;
    if t == [] {
      assert Escape(t) + end == end && end[1..] == rest;
    } else {
      if |t| > 1 && IsHighSurrogate(t[0]) && IsLowSurrogate(t[1]) {
        ParseEscaped(t[2..], rest);
        var tail := Escape(t[2..]) + end;
        PlainUnit(t[1], tail);
        PlainUnit(t[0], [t[1]] + tail);
        Assoc([t[0], t[1]], Escape(t[2..]), end);
        Assoc([t[0]], [t[1]], tail);
        assert [t[0]] + ([t[1]] + t[2..]) == t;
      } else {
        ParseEscaped(t[1..], rest);
        var tail := Escape(t[1..]) + end;
        ParseEscapedUnit(t[0], tail);
        Assoc(EscapeUnit(t[0]), Escape(t[1..]), end);
        assert [t[0]] + t[1..] == t;
      }
    }
  }

  /** How JSON.stringify writes a string: quote, backslash and the five named controls as short escapes; other
      controls and lone surrogates as four lower-case hexadecimal digits; everything else as it is. */
  lemma EscapesAre(u: Unit, t: Text)
    ensures Escape([0x08] + t) == [0x5C, 0x62] + Escape(t) && Escape([0x09] + t) == [0x5C, 0x74] + Escape(t)
    ensures Escape([0x0A] + t) == [0x5C, 0x6E] + Escape(t) && Escape([0x0C] + t) == [0x5C, 0x66] + Escape(t)
    ensures Escape([0x0D] + t) == [0x5C, 0x72] + Escape(t) && Escape([0x22] + t) == [0x5C, 0x22] + Escape(t)
    ensures Escape([0x5C] + t) == [0x5C, 0x5C] + Escape(t)
    ensures u < 0x20 && u !in {0x08, 0x09, 0x0A, 0x0C, 0x0D} ==>
      Escape([u] + t) == [0x5C, 0x75, 0x30, 0x30, if u < 0x10 then 0x30 else 0x31, LowerHex(u % 0x10)] + Escape(t)
    ensures u >= 0x20 && u != 0x22 && u != 0x5C && !(0xD800 <= u <= 0xDFFF) ==> Escape([u] + t) == [u] + Escape(t)
  {
    hide Escape;
    EscapeCons(0x08, t);
    EscapeCons(0x09, t);
    EscapeCons(0x0A, t);
    EscapeCons(0x0C, t);
    EscapeCons(0x0D, t);
    EscapeCons(0x22, t);
    EscapeCons(0x5C, t);
    if !(0xD800 <= u <= 0xDFFF) { EscapeCons(u, t); }
  }

  function LowerHex(d: nat): Unit
    requires d < 16
  {
    [0x30, 0x31, 0x32, 0x33, 0x34, 0x35, 0x36, 0x37, 0x38, 0x39, 0x61, 0x62, 0x63, 0x64, 0x65, 0x66][d]
  }

  lemma EscapeCons(u: Unit, t: Text)
    requires !(0xD800 <= u <= 0xDFFF)
    ensures Escape([u] + t) == EscapeUnit(u) + Escape(t)
  {
    assert ([u] + t)[1..] == t;
  }

  // ---------------------------------------------------------------- numbers

  /** What may follow a number without becoming part of it. */
  predicate EndsNumber(rest: Text) { rest == [] || !IsNumberUnit(rest[0]) }

  lemma {:induction false} RunOfNumber(t: Text, rest: Text)
    requires (forall u <- t :: IsNumberUnit(u)) && EndsNumber(rest)
    ensures NumberRun(t + rest) == (t, rest)
  {
    if t == [] {
      assert t + rest == rest;
    } else {
      assert t[0] in t;
      assert (t + rest)[1..] == t[1..] + rest;
      RunOfNumber(t[1..], rest);
      assert [t[0]] + t[1..] == t;
    }
  }

  // ---------------------------------------------------------------- values

  /** A printed value starts with neither white space nor a closing bracket. */
  lemma FirstUnit(v: Value)
    requires WellFormed(v) && Pure(v)
    ensures Stringify(v) != []
    ensures !IsSpace(Stringify(v)[0]) && Stringify(v)[0] != CLOSE_BRACKET && Stringify(v)[0] != CLOSE_BRACE
  {
  }

  lemma SkipNothing(s: Text)
    requires s == [] || !IsSpace(s[0])
    ensures SkipSpace(s) == s
  {
  }

  lemma ParseQuoted(t: Text, rest: Text)
    ensures (Quote(t) + rest)[0] == QUOTE
    ensures ParseString((Quote(t) + rest)[1..]) == Some((t, rest))
  {
    assert (Quote(t) + rest)[1..] == Escape(t) + ([QUOTE] + rest);
    ParseEscaped(t, rest);
  }

  // One step of the parser on text of a known shape.

  lemma WordStep(word: Text, v: Value, rest: Text)
    requires word != []
    ensures ParseWord(word + rest, word, v) == Some((v, rest))
  {
  }

  lemma ArrayStep(body: Text)
    requires body != [] && !IsSpace(body[0])
    ensures ParseValue([OPEN_BRACKET] + body) ==
              if body[0] == CLOSE_BRACKET then Some((Arr([]), body[1..])) else ParseItems(body, [])
  {
    assert ([OPEN_BRACKET] + body)[1..] == body;
  }

  lemma ObjectStep(body: Text)
    requires SkipSpace(body) != []
    ensures ParseValue([OPEN_BRACE] + body) ==
              if SkipSpace(body)[0] == CLOSE_BRACE then Some((Obj([]), SkipSpace(body)[1..])) else ParseMembers(SkipSpace(body), [])
  {
    assert ([OPEN_BRACE] + body)[1..] == body;
  }

  /** `"key":value` with any white space before the value and after it. */
  lemma MemberStep(key: Text, afterKey: Text, v: Value, tail: Text, acc: seq<Field>)
    requires StartsWith(afterKey, COLON) && ParseValue(SkipSpace(afterKey[1..])) == Some((v, tail))
    requires StartsWith(SkipSpace(tail), COMMA) || StartsWith(SkipSpace(tail), CLOSE_BRACE)
    ensures ParseMembers(Quote(key) + afterKey, acc) ==
              if StartsWith(SkipSpace(tail), COMMA)
              then ParseMembers(SkipSpace(SkipSpace(tail)[1..]), Put(acc, key, v))
              else Some((Obj(Put(acc, key, v)), SkipSpace(tail)[1..]))
  {
    ParseQuoted(key, afterKey);
    SkipNothing(afterKey);
  }

  lemma NumberStep(t: Text, rest: Text)
    requires IsNumber(t) && EndsNumber(rest)
    ensures ParseValue(t + rest) == Some((Num(t), rest))
  {
    RunOfNumber(t, rest);
    assert (t + rest)[0] == t[0];
  }

  lemma AtomStep(v: Value, rest: Text)
    requires WellFormed(v) && Pure(v) && EndsNumber(rest) && !v.Arr? && !v.Obj?
    ensures ParseValue(Stringify(v) + rest) == Some((v, rest))
  {
    match v
    case Null => WordStep(NULL_TEXT, v, rest);
    case Bool(b) => WordStep(if b then TRUE_TEXT else FALSE_TEXT, v, rest);
    case Num(t) => NumberStep(t, rest);
    case Str(t) => ParseQuoted(t, rest);
  }

  /** JSON.parse reads a printed value back, and stops right after it. */
  lemma {:induction false} ParseStringified(v: Value, rest: Text)
    requires WellFormed(v) && Pure(v) && EndsNumber(rest)
    ensures ParseValue(Stringify(v) + rest) == Some((v, rest))
    decreases v, 1, 0
  {
    if v.Arr? {
      ParseArrayPrinted(v.items, rest);
    } else if v.Obj? {
      ParseObjectPrinted(v.fields, rest);
    } else {
      AtomStep(v, rest);
    }
  }

  lemma {:induction false} ParseArrayPrinted(items: seq<Value>, rest: Text)
    requires WellFormed(Arr(items)) && Pure(Arr(items))
    ensures ParseValue(Stringify(Arr(items)) + rest) == Some((Arr(items), rest))
    decreases Arr(items), 0, |items| + 1
  {
    var end := [CLOSE_BRACKET] + rest;
    Assoc([OPEN_BRACKET] + Items(items, 0), [CLOSE_BRACKET], rest);
    Assoc([OPEN_BRACKET], Items(items, 0), end);
    if items == [] {
      assert Items(items, 0) + end == end && end[1..] == rest;
    } else {
      ItemsStart(items, 0, end);
      ParseItemsPrinted(items, 0, rest);
      assert items[..0] == [];
    }
    ArrayStep(Items(items, 0) + end);
  }

  lemma {:induction false} ParseObjectPrinted(fields: seq<Field>, rest: Text)
    requires WellFormed(Obj(fields)) && Pure(Obj(fields))
    ensures ParseValue(Stringify(Obj(fields)) + rest) == Some((Obj(fields), rest))
    decreases Obj(fields), 0, |fields| + 1
  {
    var end := [CLOSE_BRACE] + rest;
    Assoc([OPEN_BRACE] + Members(fields, 0), [CLOSE_BRACE], rest);
    Assoc([OPEN_BRACE], Members(fields, 0), end);
    if fields == [] {
      assert Members(fields, 0) + end == end && end[1..] == rest;
      SkipNothing(end);
    } else {
      MembersStart(fields, 0, end);
      ParseMembersPrinted(fields, 0, rest);
      assert fields[..0] == [];
    }
    ObjectStep(Members(fields, 0) + end);
  }

  lemma MembersStart(fields: seq<Field>, i: nat, tail: Text)
    requires i < |fields|
    ensures SkipSpace(Members(fields, i) + tail) == Members(fields, i) + tail
    ensures StartsWith(Members(fields, i) + tail, QUOTE)
  {
    SkipNothing(Members(fields, i) + tail);
  }

  lemma ItemsStart(items: seq<Value>, i: nat, tail: Text)
    requires i < |items| && WellFormed(items[i]) && Pure(items[i])
    ensures SkipSpace(Items(items, i) + tail) == Items(items, i) + tail
    ensures Items(items, i) != [] && !IsSpace(Items(items, i)[0])
    ensures !StartsWith(Items(items, i) + tail, CLOSE_BRACKET)
  {
    FirstUnit(items[i]);
    SkipNothing(Items(items, i) + tail);
  }

  lemma ItemStep(v: Value, tail: Text, acc: seq<Value>)
    requires WellFormed(v) && Pure(v) && ParseValue(Stringify(v) + tail) == Some((v, tail))
    requires StartsWith(tail, COMMA) || StartsWith(tail, CLOSE_BRACKET)
    ensures ParseItems(Stringify(v) + tail, acc) ==
              if StartsWith(tail, COMMA) then ParseItems(SkipSpace(tail[1..]), acc + [v])
              else Some((Arr(acc + [v]), tail[1..]))
  {
    SkipNothing(tail);
  }

  lemma {:induction false} ParseItemsPrinted(items: seq<Value>, i: nat, rest: Text)
    requires i < |items| && WellFormed(Arr(items)) && Pure(Arr(items))
    ensures ParseItems(Items(items, i) + ([CLOSE_BRACKET] + rest), items[..i]) == Some((Arr(items), rest))
    decreases Arr(items), 0, |items| - i
  {
    hide ParseItems, ParseValue, SkipSpace;
    var end := [CLOSE_BRACKET] + rest;
    assert items[..i] + [items[i]] == items[..i + 1];
    if i + 1 < |items| {
      var next := Items(items, i + 1) + end;
      var tail := [COMMA] + next;
      Assoc(Stringify(items[i]), [COMMA] + Items(items, i + 1), end);
      Assoc([COMMA], Items(items, i + 1), end);
      ParseStringified(items[i], tail);
      ItemStep(items[i], tail, items[..i]);
      assert tail[1..] == next;
      ItemsStart(items, i + 1, end);
      ParseItemsPrinted(items, i + 1, rest);
    } else {
      assert Items(items, i) + end == Stringify(items[i]) + end;
      ParseStringified(items[i], end);
      ItemStep(items[i], end, items[..i]);
      assert end[1..] == rest;
      assert items[..i + 1] == items;
    }
  }

  /** A fresh key is appended. */
  lemma {:induction false} PutAppends(fields: seq<Field>, k: Text, v: Value)
    requires forall f <- fields :: f.key != k
    ensures Put(fields, k, v) == fields + [Field(k, v)]
  {
    if fields != [] {
      PutAppends(fields[1..], k, v);
    }
  }

  lemma PutFresh(fields: seq<Field>, i: nat)
    requires i < |fields| && DistinctKeys(fields)
    ensures Put(fields[..i], fields[i].key, fields[i].value) == fields[..i + 1]
  {
    PutAppends(fields[..i], fields[i].key, fields[i].value);
    assert fields[..i] + [fields[i]] == fields[..i + 1];
  }

  lemma {:induction false} ParseMembersPrinted(fields: seq<Field>, i: nat, rest: Text)
    requires i < |fields| && WellFormed(Obj(fields)) && Pure(Obj(fields))
    ensures ParseMembers(Members(fields, i) + ([CLOSE_BRACE] + rest), fields[..i]) == Some((Obj(fields), rest))
    decreases Obj(fields), 0, |fields| - i
  {
    var key, v := fields[i].key, fields[i].value;
    var end := [CLOSE_BRACE] + rest;
    var more := Separator(i + 1 < |fields|) + Members(fields, i + 1);
    var tail := more + end;
    var afterKey := [COLON] + (Stringify(v) + tail);
    Assoc(Quote(key), [COLON] + (Stringify(v) + more), end);
    Assoc([COLON], Stringify(v) + more, end);
    Assoc(Stringify(v), more, end);
    assert afterKey[1..] == Stringify(v) + tail;
    FirstUnit(v);
    SkipNothing(Stringify(v) + tail);
    if i + 1 < |fields| {
      Assoc([COMMA], Members(fields, i + 1), end);
      assert tail[1..] == Members(fields, i + 1) + end;
    } else {
      assert tail == end && end[1..] == rest;
    }
    ParseStringified(v, tail);
    SkipNothing(tail);
    MemberStep(key, afterKey, v, tail, fields[..i]);
    PutFresh(fields, i);
    if i + 1 < |fields| {
      MembersStart(fields, i + 1, end);
      ParseMembersPrinted(fields, i + 1, rest);
    } else {
      assert fields[..i + 1] == fields;
    }
  }
}
